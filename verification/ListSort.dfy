/**
 The bottom-up merge sort of the list: passes over runs of doubling length, relinking the
 cells in place, with a comparison that rewrites the items it compares.
 */
module ListSort {
  import opened Basics
  import opened CoreList
  import opened ListOrder
  import opened ListLinks

  ghost predicate OwnInfos(nodes: set<ListHead>)
    reads nodes`info
  {
    forall x, y | x in nodes && y in nodes && x != y :: x.info != y.info
  }

  ghost function OrderOf(dt: map<ListHead, Item>, cmp: Comparator, restoring: bool,
                         pos: map<ListHead, int>): Order<ListHead>
  {
    Order(map x | x in dt :: Key(cmp, dt[x].data16, dt[x].idx),
          pos,
          set x | x in dt && Settled(cmp, restoring, dt[x].data16),
          set x | x in dt && Fixed(cmp, dt[x].data16))
  }

  // Comparing changes low bytes only.
  ghost predicate LowOnly(dt: map<ListHead, Item>, dt': map<ListHead, Item>)
  {
    && dt.Keys == dt'.Keys
    && forall x | x in dt :: dt'[x].idx == dt[x].idx && HighByte(dt'[x].data16) == HighByte(dt[x].data16)
  }

  lemma DataKeys(nodes: set<ListHead>)
    ensures Data(nodes).Keys == nodes
  {
  }

  lemma OrderKeys(dt: map<ListHead, Item>, cmp: Comparator, restoring: bool, pos: map<ListHead, int>)
    ensures OrderOf(dt, cmp, restoring, pos).key.Keys == dt.Keys
    ensures OrderOf(dt, cmp, restoring, pos).pos == pos
  {
  }

  lemma LowSelf(dt: map<ListHead, Item>)
    ensures LowOnly(dt, dt)
  {
  }

  lemma LowTrans(dt: map<ListHead, Item>, dt': map<ListHead, Item>, dt'': map<ListHead, Item>)
    requires LowOnly(dt, dt') && LowOnly(dt', dt'')
    ensures LowOnly(dt, dt'')
  {
    hide HighByte;
  }

  // Compare on the items of two cells, in terms of the order of all cells.
  method CompareCells(cmp: Comparator, p: ListHead, q: ListHead, res: CoreResults?,
                      ghost nodes: set<ListHead>, ghost pos: map<ListHead, int>)
    returns (r: int)
    requires cmp.CmpComplex? ==> res != null
    requires p in nodes && q in nodes && OwnInfos(nodes)
    modifies Infos(nodes)`data16, ResultState(res)
    ensures var o, o' := OrderOf(old(Data(nodes)), cmp, res == null, pos), OrderOf(Data(nodes), cmp, res == null, pos);
            o'.Extends(o) && o'.settled == o.settled + {p, q} && r == o'.key[p] - o'.key[q]
    ensures LowOnly(old(Data(nodes)), Data(nodes))
  {
    hide Settled, Key, HighByte, OrderOf, Fixed;
    ghost var dt := Data(nodes);
    r := Compare(cmp, p.info, q.info, res);
    ghost var dt' := Data(nodes);
    forall x | x in nodes
      ensures x != p && x != q ==> dt'[x] == dt[x]
    {
      if x != p && x != q {
        assert x.info != p.info && x.info != q.info;
      }
    }
    Compared(dt, dt', cmp, res == null, pos, p, q);
  }

  lemma Compared(dt: map<ListHead, Item>, dt': map<ListHead, Item>, cmp: Comparator, restoring: bool,
                 pos: map<ListHead, int>, p: ListHead, q: ListHead)
    requires dt'.Keys == dt.Keys && p in dt && q in dt
    requires forall x | x in dt && x != p && x != q :: dt'[x] == dt[x]
    requires dt'[p].idx == dt[p].idx && dt'[q].idx == dt[q].idx
    requires Settled(cmp, restoring, dt'[p].data16) && Settled(cmp, restoring, dt'[q].data16)
    requires Settled(cmp, restoring, dt[p].data16) ==> dt'[p] == dt[p]
    requires Settled(cmp, restoring, dt[q].data16) ==> dt'[q] == dt[q]
    requires FixedKept(cmp, dt[p], dt'[p]) && FixedKept(cmp, dt[q], dt'[q])
    ensures OrderOf(dt', cmp, restoring, pos).Extends(OrderOf(dt, cmp, restoring, pos))
    ensures OrderOf(dt', cmp, restoring, pos).settled == OrderOf(dt, cmp, restoring, pos).settled + {p, q}
    ensures OrderOf(dt', cmp, restoring, pos).key[p] == Key(cmp, dt'[p].data16, dt'[p].idx)
    ensures OrderOf(dt', cmp, restoring, pos).key[q] == Key(cmp, dt'[q].data16, dt'[q].idx)
  {
    var o, o' := OrderOf(dt, cmp, restoring, pos), OrderOf(dt', cmp, restoring, pos);
    hide Settled, Key, Fixed;
    ComparedSettled(dt, dt', cmp, restoring, pos, p, q);
    forall x | x in dt && (x in o.settled || x in o.fixed)
      ensures o'.key[x] == o.key[x] && (x in o.fixed ==> x in o'.fixed)
    {
      if x != p && x != q {
        assert dt'[x] == dt[x];
      }
    }
  }

  lemma ComparedSettled(dt: map<ListHead, Item>, dt': map<ListHead, Item>, cmp: Comparator, restoring: bool,
                        pos: map<ListHead, int>, p: ListHead, q: ListHead)
    requires dt'.Keys == dt.Keys && p in dt && q in dt
    requires forall x | x in dt && x != p && x != q :: dt'[x] == dt[x]
    requires Settled(cmp, restoring, dt'[p].data16) && Settled(cmp, restoring, dt'[q].data16)
    ensures OrderOf(dt', cmp, restoring, pos).settled == OrderOf(dt, cmp, restoring, pos).settled + {p, q}
  {
    hide Settled, Key, Fixed;
  }

  predicate FixedKept(cmp: Comparator, x: Item, x': Item)
  {
    Fixed(cmp, x.data16) ==> Fixed(cmp, x'.data16) && Key(cmp, x'.data16, x'.idx) == Key(cmp, x.data16, x.idx)
  }

  // ----- One merge -----

  // The merged list so far: it starts at list, ends at tail, and what tail points to is
  // still open.
  ghost predicate Merged(list: ListHead?, tail: ListHead?, d: seq<ListHead>)
    reads d`next
  {
    if d == [] then list == null && tail == null
    else list == d[0] && tail == d[|d| - 1] && Path(d, d[|d| - 1].next)
  }

  method Append(list0: ListHead?, tail0: ListHead?, e: ListHead, ghost d: seq<ListHead>)
    returns (list: ListHead?, tail: ListHead?)
    requires Merged(list0, tail0, d) && NoDup(d + [e])
    modifies (if tail0 == null then {} else {tail0})`next
    ensures Merged(list, tail, d + [e]) && e.next == old(e.next)
  {
    list := list0;
    assert e !in d by {
      assert (d + [e])[|d|] == e;
      forall i | 0 <= i < |d| ensures d[i] != e { assert (d + [e])[i] == d[i]; }
    }
    if tail0 != null {
      assert Path(d[..|d| - 1], tail0) by {
        assert d == d[..|d| - 1] + [tail0];
        PathSplit(d[..|d| - 1], [tail0], tail0.next);
      }
      assert tail0 !in d[..|d| - 1] by {
        forall i | 0 <= i < |d| - 1
          ensures d[i] != tail0
        {
          assert (d + [e])[i] == d[i] && (d + [e])[|d| - 1] == tail0;
        }
      }
      tail0.next := e;
      assert Path([tail0], e) by { assert Link([tail0], 0, e); }
      PathSplit(d[..|d| - 1], [tail0], e);
      assert d == d[..|d| - 1] + [tail0];
    } else {
      list := e;
    }
    tail := e;
    assert Path([e], e.next) by { assert Link([e], 0, e.next); }
    PathSplit(d, [e], e.next);
  }

  // Three stretches of cells that do not overlap.
  lemma Apart(d: seq<ListHead>, a: seq<ListHead>, t: seq<ListHead>)
    requires NoDup(d + a + t)
    ensures forall x | x in d :: x !in a && x !in t
    ensures forall x | x in a :: x !in t
    ensures a != [] ==> NoDup(d + [a[0]])
    ensures t != [] ==> NoDup(d + [t[0]])
  {
    var all := d + a + t;
    forall i, j | 0 <= i < |d| && 0 <= j < |a| ensures d[i] != a[j] { assert all[i] == d[i] && all[|d| + j] == a[j]; }
    forall i, j | 0 <= i < |d| && 0 <= j < |t|
      ensures d[i] != t[j]
    {
      assert all[i] == d[i] && all[|d| + |a| + j] == t[j];
    }
    forall i, j | 0 <= i < |a| && 0 <= j < |t|
      ensures a[i] != t[j]
    {
      assert all[|d| + i] == a[i] && all[|d| + |a| + j] == t[j];
    }
    forall i, j | 0 <= i < j < |d| ensures d[i] != d[j] { assert all[i] == d[i] && all[j] == d[j]; }
  }

  // Moving the head of a stretch behind the merged cells only permutes them.
  lemma TakeFirst(d: seq<ListHead>, a: seq<ListHead>, t: seq<ListHead>)
    requires NoDup(d + a + t) && a != []
    ensures NoDup(d + [a[0]] + a[1..] + t) && multiset(d + [a[0]]) + multiset(a[1..]) == multiset(d) + multiset(a)
  {
    assert d + [a[0]] + a[1..] + t == d + a + t;
    assert a == [a[0]] + a[1..];
  }

  lemma TakeSecond(d: seq<ListHead>, a: seq<ListHead>, t: seq<ListHead>)
    requires NoDup(d + a + t) && t != []
    ensures NoDup(d + [t[0]] + a + t[1..]) && multiset(d + [t[0]]) + multiset(t[1..]) == multiset(d) + multiset(t)
  {
    assert t == [t[0]] + t[1..];
    assert multiset(d + [t[0]] + a + t[1..]) == multiset(d + a + t);
    NoDupPermuted(d + a + t, d + [t[0]] + a + t[1..]);
  }

  // Everything a merge has to hand on to its loop: the merged cells d, the rest of the first
  // run a, and the rest of the second run with all that follows it, t.
  ghost predicate Laid(list: ListHead?, tail: ListHead?, d: seq<ListHead>,
                       p: ListHead?, a: seq<ListHead>, after: ListHead?,
                       q: ListHead?, t: seq<ListHead>)
    reads d`next, a`next, t`next
  {
    && Merged(list, tail, d)
    && p == Front(a, after) && Path(a, after)
    && q == Front(t, null) && Path(t, null)
    && NoDup(d + a + t)
  }

  // The cell at the front of the first run is moved behind the merged cells d + out;
  // nothing else is relinked.
  method TakeP(list0: ListHead?, tail0: ListHead?, p0: ListHead,
               ghost d: seq<ListHead>, ghost out: seq<ListHead>, ghost a: seq<ListHead>,
               ghost after: ListHead?, ghost q: ListHead?, ghost t: seq<ListHead>, ghost nodes: set<ListHead>)
    returns (list: ListHead?, tail: ListHead?, p: ListHead?)
    requires Laid(list0, tail0, d + out, p0, a, after, q, t) && a != []
    modifies (if tail0 == null then {} else {tail0})`next
    ensures Laid(list, tail, d + (out + [a[0]]), p, a[1..], after, q, t)
    ensures Data(nodes) == old(Data(nodes))
  {
    hide NoDup, Path;
    var e := p0;
    Apart(d + out, a, t);
    TakeFirst(d + out, a, t);
    PathTail(a, after);
    p := p0.next;
    assert tail0 != null ==> tail0 in d + out;
    assert forall x | x in a[1..] :: x in a;
    list, tail := Append(list0, tail0, e, d + out);
    assert Path(a[1..], after) && Path(t, null);
    assert d + (out + [a[0]]) == d + out + [a[0]];
  }

  // The same for the second run.
  method TakeQ(list0: ListHead?, tail0: ListHead?, q0: ListHead,
               ghost d: seq<ListHead>, ghost out: seq<ListHead>, ghost a: seq<ListHead>,
               ghost after: ListHead?, ghost p: ListHead?, ghost b: seq<ListHead>, ghost rest: seq<ListHead>,
               ghost nodes: set<ListHead>)
    returns (list: ListHead?, tail: ListHead?, q: ListHead?)
    requires Laid(list0, tail0, d + out, p, a, after, q0, b + rest) && b != []
    modifies (if tail0 == null then {} else {tail0})`next
    ensures Laid(list, tail, d + (out + [b[0]]), p, a, after, q, b[1..] + rest)
    ensures Data(nodes) == old(Data(nodes))
  {
    hide NoDup, Path;
    var e := q0;
    ghost var t := b + rest;
    Apart(d + out, a, t);
    TakeSecond(d + out, a, t);
    PathTail(t, null);
    q := q0.next;
    assert tail0 != null ==> tail0 in d + out;
    assert forall x | x in t[1..] :: x in t;
    list, tail := Append(list0, tail0, e, d + out);
    assert Path(a, after) && Path(t[1..], null);
    assert t[1..] == b[1..] + rest;
    assert d + (out + [b[0]]) == d + out + [b[0]];
  }

  lemma LaidFronts(list: ListHead?, tail: ListHead?, d: seq<ListHead>,
                   p: ListHead?, a: seq<ListHead>, after: ListHead?,
                   q: ListHead?, t: seq<ListHead>)
    requires Laid(list, tail, d, p, a, after, q, t)
    ensures p == Front(a, after) && q == Front(t, null)
    ensures Path(t, null) && (tail != null ==> tail in d)
  {
  }

  lemma MergingKnown(o: Order<ListHead>, out: seq<ListHead>, a: seq<ListHead>, b: seq<ListHead>, mixed: bool,
                     nodes: set<ListHead>)
    requires Merging(o, out, a, b, mixed) && o.key.Keys == nodes
    ensures Cells(out) <= nodes && Cells(a) <= nodes && Cells(b) <= nodes
    ensures (a != [] ==> a[0] in nodes) && (b != [] ==> b[0] in nodes)
  {
  }

  // The cells of two runs, dealt out between the merged ones and what is left.
  ghost predicate Dealt(out: seq<ListHead>, a: seq<ListHead>, b: seq<ListHead>, a0: seq<ListHead>, b0: seq<ListHead>)
  {
    && multiset(out) + multiset(a) + multiset(b) == multiset(a0) + multiset(b0)
    && |out| + |a| + |b| == |a0| + |b0|
  }

  lemma DealtStart(a0: seq<ListHead>, b0: seq<ListHead>)
    ensures Dealt([], a0, b0, a0, b0)
  {
  }

  lemma DealtFirst(out: seq<ListHead>, a: seq<ListHead>, b: seq<ListHead>, a0: seq<ListHead>, b0: seq<ListHead>)
    requires Dealt(out, a, b, a0, b0) && a != []
    ensures Dealt(out + [a[0]], a[1..], b, a0, b0)
  {
    assert a == [a[0]] + a[1..];
  }

  lemma DealtSecond(out: seq<ListHead>, a: seq<ListHead>, b: seq<ListHead>, a0: seq<ListHead>, b0: seq<ListHead>)
    requires Dealt(out, a, b, a0, b0) && b != []
    ensures Dealt(out + [b[0]], a, b[1..], a0, b0)
  {
    assert b == [b[0]] + b[1..];
  }

  lemma DealtAll(out: seq<ListHead>, a0: seq<ListHead>, b0: seq<ListHead>)
    requires Dealt(out, [], [], a0, b0)
    ensures multiset(out) == multiset(a0) + multiset(b0) && |out| == |a0| + |b0|
  {
  }

  lemma TailKnown(o: Order<ListHead>, tail: ListHead?, d: seq<ListHead>, out: seq<ListHead>, a: seq<ListHead>,
                  b: seq<ListHead>, mixed: bool, nodes: set<ListHead>)
    requires Merging(o, out, a, b, mixed) && o.key.Keys == nodes
    requires Cells(d) <= nodes && (tail != null ==> tail in d + out)
    ensures tail != null ==> tail in nodes
  {
    MergingKnown(o, out, a, b, mixed, nodes);
    if tail != null {
      assert tail in d || tail in out;
      assert tail in Cells(d) || tail in Cells(out);
    }
  }

  // Which run the next cell comes from.
  method Choose(p: ListHead?, psize: nat, q: ListHead?, qsize: nat, cmp: Comparator, res: CoreResults?,
                ghost nodes: set<ListHead>, ghost pos: map<ListHead, int>,
                ghost out: seq<ListHead>, ghost a: seq<ListHead>, ghost b: seq<ListHead>, ghost mixed: bool)
    returns (fromP: bool, ghost dt: map<ListHead, Item>, ghost o: Order<ListHead>)
    requires cmp.CmpComplex? ==> res != null
    requires OwnInfos(nodes)
    requires psize == |a| && (b == [] <==> qsize == 0 || q == null) && (a != [] || b != [])
    requires (a != [] ==> p == a[0]) && (b != [] ==> q == b[0])
    requires Merging(OrderOf(Data(nodes), cmp, res == null, pos), out, a, b, mixed)
    modifies Infos(nodes)`data16, ResultState(res)
    ensures dt == Data(nodes) && o == OrderOf(dt, cmp, res == null, pos)
    ensures Merging(o, out, a, b, mixed)
    ensures o.Extends(OrderOf(old(Data(nodes)), cmp, res == null, pos)) && LowOnly(old(Data(nodes)), dt)
    ensures fromP ==>
              a != [] && (b != [] ==>
                o.key[a[0]] <= o.key[b[0]] && o.AllSettled(a) && o.AllSettled(b) && o.AllSettled(out))
    ensures !fromP ==>
              b != [] && (a != [] ==>
                o.key[b[0]] < o.key[a[0]] && o.AllSettled(a) && o.AllSettled(b) && o.AllSettled(out))
  {
    hide Merging, LowOnly, Order.Extends, Order.AllSettled, Data, OwnInfos, Infos, OrderOf;
    dt := Data(nodes);
    o := OrderOf(dt, cmp, res == null, pos);
    LowSelf(dt);
    ExtendsSelf(o);
    if psize == 0 {
      fromP := false;
    } else if qsize == 0 || q == null {
      fromP := true;
    } else {
      DataKeys(nodes);
      OrderKeys(dt, cmp, res == null, pos);
      MergingKnown(o, out, a, b, mixed, nodes);
      var r := CompareCells(cmp, p, q, res, nodes, pos);
      fromP := r <= 0;
      dt := Data(nodes);
      ghost var o' := OrderOf(dt, cmp, res == null, pos);
      MergeCompared(o, o', out, a, b, mixed);
      o := o';
    }
  }

  // The loop of one merge: the run sizes count what is left of the runs.
  ghost predicate Running(list: ListHead?, tail: ListHead?, p: ListHead?, psize: nat, q: ListHead?, qsize: nat,
                          d: seq<ListHead>, out: seq<ListHead>, a: seq<ListHead>, after: ListHead?,
                          b: seq<ListHead>, rest: seq<ListHead>, a0: seq<ListHead>, b0: seq<ListHead>)
    reads (d + out)`next, a`next, (b + rest)`next
  {
    && psize == |a| && |b| <= qsize && (|b| < qsize ==> rest == [])
    && Laid(list, tail, d + out, p, a, after, q, b + rest)
    && Dealt(out, a, b, a0, b0)
  }

  method MergeStep(list0: ListHead?, tail0: ListHead?, p0: ListHead?, psize0: nat, q0: ListHead?, qsize0: nat,
                   cmp: Comparator, res: CoreResults?, ghost nodes: set<ListHead>, ghost pos: map<ListHead, int>,
                   ghost d: seq<ListHead>, ghost out0: seq<ListHead>, ghost a0: seq<ListHead>, ghost after: ListHead?,
                   ghost b0: seq<ListHead>, ghost rest: seq<ListHead>,
                   ghost ar: seq<ListHead>, ghost br: seq<ListHead>, ghost mixed: bool)
    returns (list: ListHead?, tail: ListHead?, p: ListHead?, psize: nat, q: ListHead?, qsize: nat,
             ghost out: seq<ListHead>, ghost a: seq<ListHead>, ghost b: seq<ListHead>)
    requires cmp.CmpComplex? ==> res != null
    requires OwnInfos(nodes) && Cells(d) <= nodes
    requires Running(list0, tail0, p0, psize0, q0, qsize0, d, out0, a0, after, b0, rest, ar, br)
    requires psize0 > 0 || (qsize0 > 0 && q0 != null)
    requires Merging(OrderOf(Data(nodes), cmp, res == null, pos), out0, a0, b0, mixed)
    modifies nodes`next, Infos(nodes)`data16, ResultState(res)
    ensures Running(list, tail, p, psize, q, qsize, d, out, a, after, b, rest, ar, br)
    ensures Merging(OrderOf(Data(nodes), cmp, res == null, pos), out, a, b, mixed)
    ensures OrderOf(Data(nodes), cmp, res == null, pos).Extends(OrderOf(old(Data(nodes)), cmp, res == null, pos))
    ensures LowOnly(old(Data(nodes)), Data(nodes))
    ensures |a| + |b| < |a0| + |b0|
  {
    hide NoDup, Laid, Merging, LowOnly, Order.Run, Order.Earlier, Order.Extends, Order.AllSettled, Data, OwnInfos,
         Infos, OrderOf, Dealt, Cells;
    list, tail, p, psize, q, qsize := list0, tail0, p0, psize0, q0, qsize0;
    out, a, b := out0, a0, b0;
    LaidFronts(list, tail, d + out, p, a, after, q, b + rest);
    var fromP: bool;
    ghost var dt, o;
    fromP, dt, o := Choose(p, psize, q, qsize, cmp, res, nodes, pos, out, a, b, mixed);
    DataKeys(nodes);
    OrderKeys(dt, cmp, res == null, pos);
    TailKnown(o, tail, d, out, a, b, mixed, nodes);
    if fromP {
      MergeTakeFirst(o, out, a, b, mixed);
      DealtFirst(out, a, b, ar, br);
      list, tail, p := TakeP(list, tail, p, d, out, a, after, q, b + rest, nodes);
      psize := psize - 1;
      out, a := out + [a[0]], a[1..];
    } else {
      MergeTakeSecond(o, out, a, b, mixed);
      DealtSecond(out, a, b, ar, br);
      list, tail, q := TakeQ(list, tail, q, d, out, a, after, p, b, rest, nodes);
      qsize := qsize - 1;
      out, b := out + [b[0]], b[1..];
    }
  }

  // Two runs that follow each other become one run behind the cells d.
  method Merge(list0: ListHead?, tail0: ListHead?, p0: ListHead, psize0: nat, q0: ListHead?, insize: nat,
               cmp: Comparator, res: CoreResults?, ghost nodes: set<ListHead>, ghost pos: map<ListHead, int>,
               ghost d: seq<ListHead>, ghost a0: seq<ListHead>, ghost b0: seq<ListHead>, ghost rest: seq<ListHead>)
    returns (list: ListHead?, tail: ListHead?, q: ListHead?, ghost out: seq<ListHead>)
    requires cmp.CmpComplex? ==> res != null
    requires OwnInfos(nodes) && Cells(d) <= nodes
    requires Laid(list0, tail0, d, p0, a0, q0, q0, b0 + rest)
    requires psize0 == |a0| > 0 && |b0| <= insize && (|b0| < insize ==> rest == [])
    requires var o := OrderOf(Data(nodes), cmp, res == null, pos);
             o.Run(a0) && (b0 == [] || (o.Run(b0) && o.Earlier(a0, b0)))
    modifies nodes`next, Infos(nodes)`data16, ResultState(res)
    ensures Laid(list, tail, d + out, q0, [], q0, q, rest)
    ensures multiset(out) == multiset(a0) + multiset(b0) && |out| == |a0| + |b0|
    ensures OrderOf(Data(nodes), cmp, res == null, pos).Run(out)
    ensures OrderOf(Data(nodes), cmp, res == null, pos).Extends(OrderOf(old(Data(nodes)), cmp, res == null, pos))
    ensures LowOnly(old(Data(nodes)), Data(nodes))
  {
    hide NoDup, Laid, Merging, LowOnly, Order.Run, Order.Earlier, Order.Extends, Data, OwnInfos, Infos, OrderOf, Dealt,
         Cells;
    list, tail, q := list0, tail0, q0;
    var p: ListHead?, psize, qsize := p0, psize0, insize;
    ghost var o := OrderOf(Data(nodes), cmp, res == null, pos);
    ghost var a, b, mixed := a0, b0, b0 != [];
    out := [];
    assert d + [] == d;
    DealtStart(a0, b0);
    LowSelf(Data(nodes));
    ExtendsSelf(o);
    MergeStart(o, a0, b0);
    while psize > 0 || (qsize > 0 && q != null)
      invariant Running(list, tail, p, psize, q, qsize, d, out, a, q0, b, rest, a0, b0)
      invariant Merging(OrderOf(Data(nodes), cmp, res == null, pos), out, a, b, mixed)
      invariant LowOnly(old(Data(nodes)), Data(nodes))
      invariant OrderOf(Data(nodes), cmp, res == null, pos).Extends(o)
      decreases |a| + |b|
    {
      ghost var dt := Data(nodes);
      list, tail, p, psize, q, qsize, out, a, b :=
        MergeStep(list, tail, p, psize, q, qsize, cmp, res, nodes, pos, d, out, a, q0, b, rest, a0, b0, mixed);
      LowTrans(old(Data(nodes)), dt, Data(nodes));
      ExtendsTrans(o, OrderOf(dt, cmp, res == null, pos), OrderOf(Data(nodes), cmp, res == null, pos));
    }
    LaidFronts(list, tail, d + out, p, a, q0, q, b + rest);
    assert a == [] && b == [];
    DealtAll(out, a0, b0);
    assert b + rest == rest;
    MergeEnd(OrderOf(Data(nodes), cmp, res == null, pos), out, mixed);
  }

  // ----- One pass -----

  // The runs left in a pass: the pair to be merged next and what follows it.
  function Second(todo: seq<seq<ListHead>>): seq<ListHead> { if |todo| > 1 then todo[1] else [] }

  function Later(todo: seq<seq<ListHead>>): seq<seq<ListHead>> { if |todo| > 1 then todo[2..] else [] }

  lemma FlattenPair(todo: seq<seq<ListHead>>)
    requires todo != []
    ensures Flatten(todo) == todo[0] + (Second(todo) + Flatten(Later(todo)))
  {
    if |todo| > 1 {
      assert todo[1..][1..] == todo[2..];
    } else {
      assert todo[1..] == [];
    }
  }

  lemma FlattenSnoc(done: seq<seq<ListHead>>, out: seq<ListHead>)
    ensures Flatten(done + [out]) == Flatten(done) + out
  {
    FlattenConcat(done, [out]);
    assert [out][1..] == [];
    assert Flatten([out]) == out + [];
  }

  // Merging a pair keeps every run a run and the runs in input order.
  lemma RunsMerged(o: Order<ListHead>, o': Order<ListHead>, done: seq<seq<ListHead>>, todo: seq<seq<ListHead>>,
                   out: seq<ListHead>)
    requires todo != [] && Runs(o, done + todo) && o'.Extends(o) && o'.Run(out)
    requires multiset(out) == multiset(todo[0]) + multiset(Second(todo))
    ensures Runs(o', done + [out] + Later(todo))
  {
    hide Order.Run, Order.Extends, Order.Earlier;
    RunsExtends(o, o', done + todo);
    var runs, runs' := done + todo, done + [out] + Later(todo);
    var n := |done|;
    assert runs[n] == todo[0] && (|todo| > 1 ==> runs[n + 1] == todo[1]);
    assert |runs'| == if |todo| > 1 then |runs| - 1 else |runs|;
    forall i | 0 <= i < |runs'|
      ensures o'.Run(runs'[i])
    {
      assert i < n ==> runs'[i] == runs[i];
      assert i > n ==> runs'[i] == runs[i + 1];
    }
    forall i, j | 0 <= i < j < |runs'|
      ensures o'.Earlier(runs'[i], runs'[j])
    {
      assert i < n ==> runs'[i] == runs[i];
      assert j < n ==> runs'[j] == runs[j];
      assert i > n ==> runs'[i] == runs[i + 1];
      assert j > n ==> runs'[j] == runs[j + 1];
      if i < n && j == n {
        assert o'.Earlier(runs[i], runs[n]);
        assert |todo| > 1 ==> o'.Earlier(runs[i], runs[n + 1]);
        EarlierMixed(o', runs[i], todo[0], Second(todo), out);
      } else if i == n && j > n {
        assert o'.Earlier(runs[n], runs[j + 1]) && o'.Earlier(runs[n + 1], runs[j + 1]);
        MixedEarlier(o', todo[0], Second(todo), out, runs[j + 1]);
      } else {
        assert o'.Earlier(runs[if i < n then i else i + 1], runs[if j < n then j else j + 1]);
      }
    }
  }

  lemma MixedMember(a: seq<ListHead>, b: seq<ListHead>, out: seq<ListHead>, x: ListHead)
    requires multiset(out) == multiset(a) + multiset(b) && x in out
    ensures x in a || x in b
  {
    assert x in multiset(out);
    assert x in multiset(a) || x in multiset(b);
  }

  lemma EarlierMixed(o: Order<ListHead>, s: seq<ListHead>, a: seq<ListHead>, b: seq<ListHead>, out: seq<ListHead>)
    requires multiset(out) == multiset(a) + multiset(b)
    requires o.Earlier(s, a) && (b != [] ==> o.Earlier(s, b))
    ensures o.Earlier(s, out)
  {
    forall i, j | 0 <= i < |s| && 0 <= j < |out|
      ensures s[i] in o.pos && out[j] in o.pos && o.pos[s[i]] < o.pos[out[j]]
    {
      MixedMember(a, b, out, out[j]);
    }
  }

  lemma MixedEarlier(o: Order<ListHead>, a: seq<ListHead>, b: seq<ListHead>, out: seq<ListHead>, s: seq<ListHead>)
    requires multiset(out) == multiset(a) + multiset(b)
    requires o.Earlier(a, s) && (b != [] ==> o.Earlier(b, s))
    ensures o.Earlier(out, s)
  {
    forall i, j | 0 <= i < |out| && 0 <= j < |s|
      ensures out[i] in o.pos && s[j] in o.pos && o.pos[out[i]] < o.pos[s[j]]
    {
      MixedMember(a, b, out, out[i]);
      if out[i] in a {
        var k :| 0 <= k < |a| && a[k] == out[i];
        EarlierAt(o, a, s, k, j);
      } else {
        var k :| 0 <= k < |b| && b[k] == out[i];
        EarlierAt(o, b, s, k, j);
      }
    }
  }

  // Stepping over one run.
  method Advance(p: ListHead, insize: nat, ghost s: seq<ListHead>, ghost nodes: set<ListHead>)
    returns (q: ListHead?, psize: nat)
    requires s != [] && p == s[0] && Path(s, null) && insize > 0
    ensures psize == (if |s| < insize then |s| else insize) && q == Front(s[psize..], null)
    ensures Data(nodes) == old(Data(nodes))
  {
    hide Path, Data;
    q, psize := p, 0;
    var i := 0;
    assert s[0..] == s;
    assert forall x | x in Infos(nodes) :: x.idx == x.idx;
    while i < insize
      invariant i <= insize && psize == i <= |s| && (i < insize ==> i < |s|)
      invariant q == Front(s[i..], null) && Path(s[i..], null)
    {
      psize := psize + 1;
      PathTail(s[i..], null);
      assert s[i..][1..] == s[i + 1..];
      q := q.next;
      if q == null {
        break;
      }
      i := i + 1;
    }
  }

  // The state of a pass over k0 runs of length w: the runs merged so far are twice as long.
  ghost predicate Passing(list: ListHead?, tail: ListHead?, p: ListHead?, nmerges: nat,
                          done: seq<seq<ListHead>>, todo: seq<seq<ListHead>>, k0: nat, w: nat, s: seq<ListHead>)
    reads Flatten(done)`next, Flatten(todo)`next
  {
    && Laid(list, tail, Flatten(done), null, [], null, p, Flatten(todo))
    && nmerges == |done|
    && Halved(done, todo, k0, w, s)
  }

  ghost predicate Halved(done: seq<seq<ListHead>>, todo: seq<seq<ListHead>>, k0: nat, w: nat, s: seq<ListHead>)
  {
    && multiset(Flatten(done)) + multiset(Flatten(todo)) == multiset(s)
    && Lengths(todo, w)
    && Lengths(done, 2 * w) && (todo != [] ==> forall i | 0 <= i < |done| :: |done[i]| == 2 * w)
    && (2 * |done| + |todo| == k0 || (todo == [] && 2 * |done| == k0 + 1))
  }

  lemma HalvedFacts(done: seq<seq<ListHead>>, todo: seq<seq<ListHead>>, k0: nat, w: nat, s: seq<ListHead>)
    requires Halved(done, todo, k0, w, s)
    ensures multiset(Flatten(done)) + multiset(Flatten(todo)) == multiset(s)
    ensures Lengths(todo, w)
  {
  }

  lemma HalvedStep(done: seq<seq<ListHead>>, todo: seq<seq<ListHead>>, out: seq<ListHead>, k0: nat, w: nat,
                   s: seq<ListHead>)
    requires Halved(done, todo, k0, w, s) && todo != []
    requires multiset(out) == multiset(todo[0]) + multiset(Second(todo)) && |out| == |todo[0]| + |Second(todo)|
    ensures Halved(done + [out], Later(todo), k0, w, s)
  {
    hide Flatten;
    FlattenSnoc(done, out);
    FlattenPair(todo);
  }

  // Naming the second stretch of the input.
  lemma LaidSplit(list: ListHead?, tail: ListHead?, d: seq<ListHead>, p: ListHead?, a: seq<ListHead>, q: ListHead?,
                  t: seq<ListHead>)
    requires Laid(list, tail, d, null, [], null, p, a + t) && q == Front(t, null)
    ensures Laid(list, tail, d, p, a, q, q, t)
  {
    hide NoDup, Path, Merged;
    PathSplit(a, t, null);
    assert d + [] + (a + t) == d + a + t;
  }

  lemma LaidJoin(list: ListHead?, tail: ListHead?, d: seq<ListHead>, x: ListHead?, q: ListHead?, t: seq<ListHead>)
    requires Laid(list, tail, d, x, [], x, q, t)
    ensures Laid(list, tail, d, null, [], null, q, t)
  {
  }

  lemma CellsWithin(d: seq<ListHead>, t: seq<ListHead>, s: seq<ListHead>)
    requires multiset(d) + multiset(t) == multiset(s)
    ensures Cells(d) <= Cells(s)
  {
    forall x | x in d
      ensures x in s
    {
      assert x in multiset(d) && x in multiset(s);
    }
  }

  // What is known of the pair to be merged next.
  lemma FirstPair(o: Order<ListHead>, done: seq<seq<ListHead>>, todo: seq<seq<ListHead>>, w: nat)
    requires todo != [] && Runs(o, done + todo) && Lengths(todo, w)
    ensures o.Run(todo[0]) && (Second(todo) == [] || (o.Run(Second(todo)) && o.Earlier(todo[0], Second(todo))))
    ensures 0 < |todo[0]| <= w && |Second(todo)| <= w
    ensures |todo[0]| < w || |Second(todo)| < w ==> Flatten(Later(todo)) == []
    ensures |todo[0]| < w ==> Second(todo) == []
    ensures |Later(todo)| < |todo|
  {
    hide Order.Run, Order.Earlier;
    var runs := done + todo;
    assert runs[|done|] == todo[0];
    assert |todo| > 1 ==> runs[|done| + 1] == todo[1];
    assert |todo| > 1 ==> o.Earlier(runs[|done|], runs[|done| + 1]);
  }

  // The two runs at p, found by stepping over the first, are merged.
  method MergePair(list0: ListHead?, tail0: ListHead?, p0: ListHead, insize: nat,
                   cmp: Comparator, res: CoreResults?, ghost nodes: set<ListHead>, ghost pos: map<ListHead, int>,
                   ghost d: seq<ListHead>, ghost a: seq<ListHead>, ghost b: seq<ListHead>, ghost rest: seq<ListHead>)
    returns (list: ListHead?, tail: ListHead?, p: ListHead?, ghost out: seq<ListHead>)
    requires cmp.CmpComplex? ==> res != null
    requires OwnInfos(nodes) && Cells(d) <= nodes && insize > 0
    requires Laid(list0, tail0, d, null, [], null, p0, a + (b + rest))
    requires 0 < |a| <= insize && |b| <= insize && (|b| < insize ==> rest == []) && (|a| < insize ==> b == [])
    requires var o := OrderOf(Data(nodes), cmp, res == null, pos);
             o.Run(a) && (b == [] || (o.Run(b) && o.Earlier(a, b)))
    modifies nodes`next, Infos(nodes)`data16, ResultState(res)
    ensures Laid(list, tail, d + out, null, [], null, p, rest)
    ensures multiset(out) == multiset(a) + multiset(b) && |out| == |a| + |b|
    ensures OrderOf(Data(nodes), cmp, res == null, pos).Run(out)
    ensures OrderOf(Data(nodes), cmp, res == null, pos).Extends(OrderOf(old(Data(nodes)), cmp, res == null, pos))
    ensures LowOnly(old(Data(nodes)), Data(nodes))
  {
    hide NoDup, Laid, LowOnly, Order.Run, Order.Earlier, Order.Extends, Data, OwnInfos, Infos, OrderOf, Cells, Path;
    LaidFronts(list0, tail0, d, null, [], null, p0, a + (b + rest));
    var q, psize := Advance(p0, insize, a + (b + rest), nodes);
    assert (a + (b + rest))[|a|..] == b + rest;
    LaidSplit(list0, tail0, d, p0, a, q, b + rest);
    list, tail, p, out := Merge(list0, tail0, p0, psize, q, insize, cmp, res, nodes, pos, d, a, b, rest);
    LaidJoin(list, tail, d + out, q, p, rest);
  }

  // One merge of a pass.
  method PassStep(list0: ListHead?, tail0: ListHead?, p0: ListHead, nmerges0: nat, insize: nat,
                  cmp: Comparator, res: CoreResults?, ghost pos: map<ListHead, int>,
                  ghost done0: seq<seq<ListHead>>, ghost todo0: seq<seq<ListHead>>, ghost k0: nat,
                  ghost s: seq<ListHead>)
    returns (list: ListHead?, tail: ListHead?, p: ListHead?, nmerges: nat,
             ghost done: seq<seq<ListHead>>, ghost todo: seq<seq<ListHead>>)
    requires cmp.CmpComplex? ==> res != null
    requires OwnInfos(Cells(s)) && insize > 0 && todo0 != []
    requires Passing(list0, tail0, p0, nmerges0, done0, todo0, k0, insize, s)
    requires Runs(OrderOf(Data(Cells(s)), cmp, res == null, pos), done0 + todo0)
    modifies Cells(s)`next, Infos(Cells(s))`data16, ResultState(res)
    ensures Passing(list, tail, p, nmerges, done, todo, k0, insize, s)
    ensures Runs(OrderOf(Data(Cells(s)), cmp, res == null, pos), done + todo)
    ensures OrderOf(Data(Cells(s)), cmp, res == null, pos).Extends(OrderOf(old(Data(Cells(s))), cmp, res == null, pos))
    ensures LowOnly(old(Data(Cells(s))), Data(Cells(s)))
    ensures |todo| < |todo0|
  {
    hide NoDup, Laid, LowOnly, Order.Run, Order.Earlier, Order.Extends, Data, OwnInfos, Infos, OrderOf, Cells, Flatten,
         Path, Runs, Second, Later, Halved;
    ghost var d, a, b, rest := Flatten(done0), todo0[0], Second(todo0), Flatten(Later(todo0));
    ghost var o := OrderOf(Data(Cells(s)), cmp, res == null, pos);
    FlattenPair(todo0);
    nmerges := nmerges0 + 1;
    assert Lengths(todo0, insize) && multiset(d) + multiset(Flatten(todo0)) == multiset(s) by {
      HalvedFacts(done0, todo0, k0, insize, s);
    }
    FirstPair(o, done0, todo0, insize);
    CellsWithin(d, a + (b + rest), s);
    ghost var out;
    list, tail, p, out := MergePair(list0, tail0, p0, insize, cmp, res, Cells(s), pos, d, a, b, rest);
    RunsMerged(o, OrderOf(Data(Cells(s)), cmp, res == null, pos), done0, todo0, out);
    HalvedStep(done0, todo0, out, k0, insize, s);
    done, todo := done0 + [out], Later(todo0);
    FlattenSnoc(done0, out);
  }

  lemma PathEmpty()
    ensures Path([], null)
  {
  }

  lemma FlattenEmpty()
    ensures Flatten<ListHead>([]) == []
  {
  }

  lemma NothingBefore(t: seq<ListHead>)
    ensures [] + [] + t == t
  {
  }

  // The end of a pass: the merged cells are closed off and form a list of their own.
  lemma PassStart(list: ListHead?, runs: seq<seq<ListHead>>, w: nat, s: seq<ListHead>)
    requires IsList(list, Flatten(runs)) && Lengths(runs, w) && multiset(Flatten(runs)) == multiset(s)
    ensures Passing(null, null, list, 0, [], runs, |runs|, w, s)
  {
    hide Path, NoDup, Flatten;
    PathEmpty();
    FlattenEmpty();
    NothingBefore(Flatten(runs));
  }

  method Close(list: ListHead, tail: ListHead, ghost d: seq<ListHead>)
    requires d != [] && Merged(list, tail, d) && NoDup(d)
    modifies tail`next
    ensures IsList(list, d)
  {
    hide NoDup;
    ghost var c := d[..|d| - 1];
    assert d == c + [tail];
    assert tail !in c by {
      assert c + [tail] + [] == d;
      Apart(c, [tail], []);
      assert tail in [tail];
    }
    PathSplit(c, [tail], tail.next);
    tail.next := null;
    assert Path([tail], null) by { assert Link([tail], 0, null); }
    PathSplit(c, [tail], null);
  }

  lemma PassEnd(list: ListHead?, tail: ListHead?, nmerges: nat, done: seq<seq<ListHead>>, k0: nat, w: nat,
                s: seq<ListHead>)
    requires Passing(list, tail, null, nmerges, done, [], k0, w, s) && s != []
    ensures list != null && tail != null && tail in Cells(s)
    ensures Flatten(done) != [] && Merged(list, tail, Flatten(done)) && NoDup(Flatten(done))
    ensures multiset(Flatten(done)) == multiset(s) && Lengths(done, 2 * w)
    ensures nmerges == |done| && (2 * |done| == k0 || 2 * |done| == k0 + 1)
  {
    hide Path;
    var d := Flatten(done);
    assert Flatten<ListHead>([]) == [];
    assert multiset(d) == multiset(s);
    assert s[0] in multiset(s) && s[0] in d;
    assert d + [] + [] == d;
    CellsWithin(d, [], s);
    assert tail in d;
  }

  method Pass(list0: ListHead?, insize: nat, cmp: Comparator, res: CoreResults?,
              ghost pos: map<ListHead, int>, ghost runs: seq<seq<ListHead>>, ghost s: seq<ListHead>)
    returns (list: ListHead?, nmerges: nat, ghost done: seq<seq<ListHead>>)
    requires cmp.CmpComplex? ==> res != null
    requires OwnInfos(Cells(s)) && insize > 0 && s != []
    requires IsList(list0, Flatten(runs)) && Lengths(runs, insize) && multiset(Flatten(runs)) == multiset(s)
    requires Runs(OrderOf(Data(Cells(s)), cmp, res == null, pos), runs)
    modifies Cells(s)`next, Infos(Cells(s))`data16, ResultState(res)
    ensures IsList(list, Flatten(done)) && Lengths(done, 2 * insize) && multiset(Flatten(done)) == multiset(s)
    ensures Runs(OrderOf(Data(Cells(s)), cmp, res == null, pos), done)
    ensures OrderOf(Data(Cells(s)), cmp, res == null, pos).Extends(OrderOf(old(Data(Cells(s))), cmp, res == null, pos))
    ensures LowOnly(old(Data(Cells(s))), Data(Cells(s)))
    ensures nmerges == |done| && (2 * |done| == |runs| || 2 * |done| == |runs| + 1)
  {
    hide Passing, IsList, Merged, NoDup, Path, LowOnly, Order.Extends, Data, OwnInfos, OrderOf, Runs, Lengths, Flatten,
         Cells;
    var p := list0;
    list := null;
    var tail: ListHead? := null;
    nmerges := 0;
    done := [];
    ghost var todo := runs;
    ghost var o := OrderOf(Data(Cells(s)), cmp, res == null, pos);
    PassStart(list0, runs, insize, s);
    LowSelf(Data(Cells(s)));
    ExtendsSelf(o);
    assert [] + runs == runs;
    while p != null
      invariant Passing(list, tail, p, nmerges, done, todo, |runs|, insize, s)
      invariant Runs(OrderOf(Data(Cells(s)), cmp, res == null, pos), done + todo)
      invariant OrderOf(Data(Cells(s)), cmp, res == null, pos).Extends(o)
      invariant LowOnly(old(Data(Cells(s))), Data(Cells(s)))
      decreases |todo|
    {
      ghost var dt := Data(Cells(s));
      PassGoesOn(list, tail, p, nmerges, done, todo, |runs|, insize, s);
      list, tail, p, nmerges, done, todo :=
        PassStep(list, tail, p, nmerges, insize, cmp, res, pos, done, todo, |runs|, s);
      LowTrans(old(Data(Cells(s))), dt, Data(Cells(s)));
      ExtendsTrans(o, OrderOf(dt, cmp, res == null, pos), OrderOf(Data(Cells(s)), cmp, res == null, pos));
    }
    PassGoesOn(list, tail, p, nmerges, done, todo, |runs|, insize, s);
    assert done + [] == done;
    PassEnd(list, tail, nmerges, done, |runs|, insize, s);
    ghost var dt := Data(Cells(s));
    Close(list, tail, Flatten(done));
    assert Data(Cells(s)) == dt;
  }

  lemma PassGoesOn(list: ListHead?, tail: ListHead?, p: ListHead?, nmerges: nat, done: seq<seq<ListHead>>,
                   todo: seq<seq<ListHead>>, k0: nat, w: nat, s: seq<ListHead>)
    requires Passing(list, tail, p, nmerges, done, todo, k0, w, s)
    ensures p == null <==> todo == []
  {
  }

  // ----- The sort -----

  ghost function IndexOf(s: seq<ListHead>, x: ListHead): (i: nat)
    requires x in s
    ensures i < |s| && s[i] == x
  {
    if s[0] == x then 0 else 1 + IndexOf(s[1..], x)
  }

  ghost function Positions(s: seq<ListHead>): map<ListHead, int>
  {
    map x | x in s :: IndexOf(s, x)
  }

  lemma PositionsAre(s: seq<ListHead>, i: nat)
    requires NoDup(s) && i < |s|
    ensures s[i] in Positions(s) && Positions(s)[s[i]] == i
  {
    var k := IndexOf(s, s[i]);
  }

  function Singletons(s: seq<ListHead>): (runs: seq<seq<ListHead>>)
    ensures |runs| == |s| && forall i | 0 <= i < |s| :: runs[i] == [s[i]]
  {
    if s == [] then [] else [[s[0]]] + Singletons(s[1..])
  }

  lemma {:induction false} FlattenSingletons(s: seq<ListHead>)
    ensures Flatten(Singletons(s)) == s
  {
    if s != [] {
      FlattenSingletons(s[1..]);
      assert Singletons(s)[1..] == Singletons(s[1..]);
    }
  }

  // The cells in input order are runs of length one.
  lemma SingletonRuns(o: Order<ListHead>, s: seq<ListHead>)
    requires NoDup(s) && o.key.Keys == Cells(s) && o.pos == Positions(s)
    ensures Runs(o, Singletons(s)) && Lengths(Singletons(s), 1)
  {
    hide Positions, Order.Run, Order.Earlier;
    var runs := Singletons(s);
    forall i | 0 <= i < |s|
      ensures s[i] in o.pos && s[i] in o.key && o.pos[s[i]] == i
    {
      PositionsAre(s, i);
      assert s[i] in Cells(s);
    }
    forall i, j | 0 <= i < j < |runs|
      ensures o.Earlier(runs[i], runs[j])
    {
      SingletonEarlier(o, s[i], s[j]);
    }
    forall i | 0 <= i < |runs|
      ensures o.Run(runs[i])
    {
      SingletonRun(o, s[i]);
    }
  }

  lemma SingletonRun(o: Order<ListHead>, x: ListHead)
    requires x in o.key && x in o.pos
    ensures o.Run([x])
  {
  }

  lemma SingletonEarlier(o: Order<ListHead>, x: ListHead, y: ListHead)
    requires x in o.pos && y in o.pos && o.pos[x] < o.pos[y]
    ensures o.Earlier([x], [y])
  {
  }

  // The whole list, in order by key and then by position in the input.
  ghost predicate StablySorted(t: seq<ListHead>, dt: map<ListHead, Item>, cmp: Comparator, restoring: bool,
                               s: seq<ListHead>)
  {
    OrderOf(dt, cmp, restoring, Positions(s)).Sorted(t)
  }

  ghost predicate AllSettled(t: seq<ListHead>, dt: map<ListHead, Item>, cmp: Comparator, restoring: bool)
  {
    forall x | x in t :: x in dt && Settled(cmp, restoring, dt[x].data16)
  }

  lemma SortEnd(done: seq<seq<ListHead>>, dt: map<ListHead, Item>, cmp: Comparator, restoring: bool, s: seq<ListHead>)
    returns (t: seq<ListHead>)
    requires |done| <= 1 && multiset(Flatten(done)) == multiset(s) && s != []
    requires Runs(OrderOf(dt, cmp, restoring, Positions(s)), done)
    ensures t == Flatten(done)
    ensures StablySorted(t, dt, cmp, restoring, s) && (|s| > 1 ==> AllSettled(t, dt, cmp, restoring))
  {
    hide Positions, Settled, Key;
    t := Flatten(done);
    FlattenEmpty();
    assert |multiset(t)| == |multiset(s)|;
    assert done != [];
    assert done[1..] == [];
    assert t == done[0] + [] == done[0];
    var o := OrderOf(dt, cmp, restoring, Positions(s));
    assert o.Run(done[0]);
  }

  // The sort keeps the cells and what they point to, orders them by key with ties in input
  // order, and every element of a list of at least two has taken part in a comparison.
  method MergeSort(list0: ListHead?, cmp: Comparator, res: CoreResults?, ghost s: seq<ListHead>)
    returns (list: ListHead?, ghost t: seq<ListHead>)
    requires IsList(list0, s) && s != []
    requires OwnInfos(Cells(s)) && (cmp.CmpComplex? ==> res != null)
    modifies Cells(s)`next, Infos(Cells(s))`data16, ResultState(res)
    ensures IsList(list, t) && multiset(t) == multiset(s)
    ensures StablySorted(t, Data(Cells(s)), cmp, res == null, s)
    ensures |s| > 1 ==> AllSettled(t, Data(Cells(s)), cmp, res == null)
    ensures LowOnly(old(Data(Cells(s))), Data(Cells(s)))
    ensures OrderOf(Data(Cells(s)), cmp, res == null, Positions(s)).Extends(
              OrderOf(old(Data(Cells(s))), cmp, res == null, Positions(s)))
  {
    hide IsList, LowOnly, Data, OwnInfos, OrderOf, Runs, Lengths, Flatten, Cells, AllSettled, StablySorted, Positions,
         Order.Extends;
    list := list0;
    var insize := 1;
    ghost var runs := Singletons(s);
    ghost var dt := Data(Cells(s));
    FlattenSingletons(s);
    DataKeys(Cells(s));
    OrderKeys(dt, cmp, res == null, Positions(s));
    assert NoDup(s) by { ListNoDup(list, s); }
    SingletonRuns(OrderOf(dt, cmp, res == null, Positions(s)), s);
    LowSelf(dt);
    ghost var o := OrderOf(dt, cmp, res == null, Positions(s));
    ExtendsSelf(o);
    while true
      invariant insize > 0
      invariant IsList(list, Flatten(runs)) && Lengths(runs, insize) && multiset(Flatten(runs)) == multiset(s)
      invariant Runs(OrderOf(Data(Cells(s)), cmp, res == null, Positions(s)), runs)
      invariant LowOnly(old(Data(Cells(s))), Data(Cells(s)))
      invariant OrderOf(Data(Cells(s)), cmp, res == null, Positions(s)).Extends(o)
      decreases |runs|
    {
      var nmerges;
      ghost var done;
      dt := Data(Cells(s));
      list, nmerges, done := Pass(list, insize, cmp, res, Positions(s), runs, s);
      LowTrans(old(Data(Cells(s))), dt, Data(Cells(s)));
      ExtendsTrans(o, OrderOf(dt, cmp, res == null, Positions(s)),
                   OrderOf(Data(Cells(s)), cmp, res == null, Positions(s)));
      if nmerges <= 1 {
        t := SortEnd(done, Data(Cells(s)), cmp, res == null, s);
        return;
      }
      insize := insize * 2;
      runs := done;
    }
  }

  lemma ListNoDup(list: ListHead?, s: seq<ListHead>)
    requires IsList(list, s)
    ensures NoDup(s)
  {
  }
}
