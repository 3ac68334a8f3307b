/**
 The list benchmark step: rounds of find and reverse, an optional sort by computed value,
 removing a cell and putting it back, and the sort by index that is to restore the list.
 */
module ListBench {
  import opened Basics
  import opened CoreList
  import opened ListOrder
  import opened ListLinks
  import opened ListSort

  // ----- Removing a cell and putting it back -----

  // The cell behind item is unlinked, after the two have exchanged what they point to.
  method Remove(item: ListHead) returns (ret: ListHead)
    requires item.next != null && item.next != item
    modifies item, item.next
    ensures ret == old(item.next) && ret.next == null && item.next == old(item.next.next)
    ensures item.info == old(item.next.info) && ret.info == old(item.info)
  {
    ret := item.next;
    var tmp := item.info;
    item.info := ret.info;
    ret.info := tmp;
    item.next := item.next.next;
    ret.next := null;
  }

  method UndoRemove(removed: ListHead, modified: ListHead) returns (r: ListHead)
    requires removed != modified
    modifies removed, modified
    ensures r == removed && removed.next == old(modified.next) && modified.next == removed
    ensures removed.info == old(modified.info) && modified.info == old(removed.info)
  {
    var tmp := removed.info;
    removed.info := modified.info;
    modified.info := tmp;
    removed.next := modified.next;
    modified.next := removed;
    r := removed;
  }

  // ----- One round of find and reverse -----

  // The cell behind the one at k moves up behind the first.
  function Relinked(r: seq<ListHead>, k: nat): seq<ListHead>
    requires k < |r|
  {
    if k + 1 < |r| then [r[0], r[k + 1]] + r[1..k + 1] + r[k + 2..] else r
  }

  lemma RelinkedPermutes(r: seq<ListHead>, k: nat)
    requires k < |r|
    ensures multiset(Relinked(r, k)) == multiset(r)
  {
    if k + 1 < |r| {
      var between, after := r[1..k + 1], r[k + 2..];
      assert r == [r[0]] + between + [r[k + 1]] + after;
      MovedForward(r[0], r[k + 1], between, after);
    }
  }

  lemma MovedForward<T>(x: T, y: T, between: seq<T>, after: seq<T>)
    ensures multiset([x, y] + between + after) == multiset([x] + between + [y] + after)
  {
  }

  // The list after one round in which the find stopped at place `at` (the length if nothing
  // was found).
  function Round(s: seq<ListHead>, at: nat): seq<ListHead>
    requires at <= |s|
  {
    if at == |s| then Reversed(s) else Relinked(Reversed(s), |s| - 1 - at)
  }

  lemma RoundPermutes(s: seq<ListHead>, at: nat)
    requires at <= |s|
    ensures multiset(Round(s, at)) == multiset(s)
  {
    ReversedPermutes(s);
    if at < |s| {
      RelinkedPermutes(Reversed(s), |s| - 1 - at);
    }
  }

  // Rounds i up to n; the index looked for counts up and wraps, the data is the round's number.
  ghost function Rounds(s: seq<ListHead>, dt: map<ListHead, Item>, idx: int16, i: nat, n: int): seq<ListHead>
    decreases n - i
  {
    if i >= n then s
    else Rounds(Round(s, FindAt(s, dt, idx, ByteOf(i))), dt, NextIdx(idx), i + 1, n)
  }

  function NextIdx(idx: int16): int16
  {
    if idx < 0 then idx else if idx == 0x7fff then -0x8000 else idx + 1
  }

  // k as a counter of 16 bits has it.
  function Times(k: nat): bv16
  {
    if k == 0 then 0 else Up(Times(k - 1))
  }

  function ByteOf(i: nat): bv16 { Times(i) & 0xff }

  // The stretches of r around k.
  lemma StretchesBefore(r: seq<ListHead>, k: nat)
    requires Path(r, null) && k + 1 < |r|
    ensures r[0].next == r[1] && r[k].next == r[k + 1] && r[k + 1].next == Front(r[k + 2..], null)
    ensures Path(r[k + 2..], null) && (k > 0 ==> Path(r[1..k], r[k]))
  {
    assert Link(r, 0, null) && Link(r, k, null) && Link(r, k + 1, null);
    hide Path;
    assert r == r[..k + 2] + r[k + 2..];
    PathSplit(r[..k + 2], r[k + 2..], null);
    if k > 0 {
      assert r == [r[0]] + (r[1..k] + r[k..]);
      PathSplit([r[0]], r[1..k] + r[k..], null);
      PathSplit(r[1..k], r[k..], null);
    }
  }

  lemma StretchesAfter(r: seq<ListHead>, k: nat)
    requires 0 < k && k + 1 < |r|
    requires r[0].next == r[k + 1] && r[k + 1].next == r[1] && r[k].next == Front(r[k + 2..], null)
    requires Path(r[k + 2..], null) && Path(r[1..k], r[k])
    ensures Path(Relinked(r, k), null)
  {
    var inner, back := r[1..k], r[k + 2..];
    assert Link([r[k]], 0, Front(back, null)) && Link([r[k + 1]], 0, r[1]) && Link([r[0]], 0, r[k + 1]);
    assert Path([r[k]], Front(back, null)) && Path([r[k + 1]], r[1]) && Path([r[0]], r[k + 1]);
    hide Path, Relinked;
    PathSplit([r[k]], back, null);
    PathSplit(inner, [r[k]] + back, null);
    PathSplit([r[k + 1]], inner + ([r[k]] + back), null);
    PathSplit([r[0]], [r[k + 1]] + (inner + ([r[k]] + back)), null);
    RelinkedParts(r, k);
  }

  lemma RelinkedParts(r: seq<ListHead>, k: nat)
    requires 0 < k && k + 1 < |r|
    ensures Relinked(r, k) == [r[0]] + ([r[k + 1]] + (r[1..k] + ([r[k]] + r[k + 2..])))
  {
    assert r[1..k + 1] == r[1..k] + [r[k]];
  }

  lemma StretchesSame(r: seq<ListHead>)
    requires 1 < |r| && r[0].next == r[1] && r[1].next == Front(r[2..], null) && Path(r[2..], null)
    ensures Path(Relinked(r, 0), null)
  {
    var back := r[2..];
    assert Link([r[1]], 0, Front(back, null)) && Link([r[0]], 0, r[1]);
    assert Path([r[1]], Front(back, null)) && Path([r[0]], r[1]);
    PathSplit([r[1]], back, null);
    PathSplit([r[0]], [r[1]] + back, null);
    assert Relinked(r, 0) == [r[0]] + ([r[1]] + back);
  }

  // Relinking inside the reversed list r.
  method Relink(list: ListHead, found: ListHead, ghost r: seq<ListHead>, ghost k: nat)
    requires IsList(list, r) && k < |r| && found == r[k] && found.next != null
    modifies r`next
    ensures IsList(list, Relinked(r, k))
  {
    LinkAt(r, k, null);
    hide NoDup, Path;
    var finder := found.next;
    StretchesBefore(r, k);
    ApartAll(r, k);
    RelinkedPermutes(r, k);
    NoDupPermuted(r, Relinked(r, k));
    found.next := finder.next;
    finder.next := list.next;
    list.next := finder;
    assert Path(r[k + 2..], null);
    if k > 0 {
      assert Path(r[1..k], r[k]);
      StretchesAfter(r, k);
    } else {
      StretchesSame(r);
    }
  }

  lemma LinkAt(s: seq<ListHead>, k: nat, last: ListHead?)
    requires Path(s, last) && k < |s|
    ensures s[k].next == if k + 1 < |s| then s[k + 1] else last
  {
    assert Link(s, k, last);
  }

  // The cells that Relink writes to are outside the stretches it leaves alone.
  lemma ApartAll(r: seq<ListHead>, k: nat)
    requires NoDup(r) && k + 1 < |r|
    ensures r[0] != r[k + 1] && r[k] != r[k + 1] && (k > 0 ==> r[0] != r[k])
    ensures r[0] !in r[k + 2..] && r[k] !in r[k + 2..] && r[k + 1] !in r[k + 2..]
    ensures k > 0 ==> r[0] !in r[1..k] && r[k] !in r[1..k] && r[k + 1] !in r[1..k]
  {
  }

  // Sums of 16-bit counters.
  function Up(x: bv16): bv16 { x + 1 }

  function Plus(x: bv16, y: bv16): bv16 { x + y }

  function Points(found: bv16, missed: bv16): bv16 { found * 4 - missed }

  // The counts of a run so far.
  datatype Tally = Tally(retval: bv16, found: bv16, missed: bv16) {

    // Bit 8 of the item that is second after the reversal.
    function Missing(second: bv16): Tally
    {
      Tally(retval + ((second >> 8) & 1), found, Up(missed))
    }

    // Bit 9 of an item found that is odd.
    function Finding(d: bv16): Tally
    {
      Tally(if d & 1 != 0 then retval + ((d >> 9) & 1) else retval, Up(found), missed)
    }

    function Summed(): bv16
    {
      retval + Points(found, missed)
    }
  }

  // A round adds the lowest bit of the high byte of the item it looks at, or the bit above for
  // an item found, if that is odd.
  lemma BitsCounted(c: Tally, d: bv16)
    ensures c.Missing(d).retval - c.retval == HighByte(d) & 1
    ensures c.Finding(d).retval - c.retval == if d & 1 == 1 then (HighByte(d) >> 1) & 1 else 0
  {
  }

  // A find counts four and a miss takes one, and nothing counts without them; all wraps at 2^16.
  lemma PointsCounted(found: bv16, missed: bv16)
    ensures Points(0, 0) == 0
    ensures Points(Up(found), missed) == Points(found, missed) + 4
    ensures Points(found, Up(missed)) == Points(found, missed) - 1
  {
    hide Points;
    NoPoints();
    OneFound(found, missed);
    OneMissed(found, missed);
  }

  lemma NoPoints()
    ensures Points(0, 0) == 0
  {
  }

  lemma OneFound(found: bv16, missed: bv16)
    ensures Points(found + 1, missed) == Points(found, missed) + 4
  {
  }

  lemma OneMissed(found: bv16, missed: bv16)
    ensures Points(found, missed + 1) == Points(found, missed) - 1
  {
  }

  // The bits of the items are added to that.
  lemma BitsSummed(c: Tally)
    ensures c.Summed() - Points(c.found, c.missed) == c.retval
  {
    hide Points;
  }

  function Total(c: Tally): bv16 { Plus(c.found, c.missed) }

  lemma TotalCounted(c: Tally, d: bv16)
    ensures Total(c.Missing(d)) == Up(Total(c)) && c.Missing(d).found == c.found
    ensures Total(c.Finding(d)) == Up(Total(c)) && c.Finding(d).found == Up(c.found)
  {
    hide Up, Plus;
    OneMore(c.found, c.missed);
  }

  lemma OneMore(x: bv16, y: bv16)
    ensures Plus(Up(x), y) == Up(Plus(x, y)) == Plus(x, Up(y))
  {
    hide Plus;
    OnePlus(x, y);
  }

  lemma OnePlus(x: bv16, y: bv16)
    ensures Plus(x + 1, y) == Plus(x, y) + 1 == Plus(x, y + 1)
  {
  }

  // The reversal brings the last item but one to the second place.
  ghost function Counted(s: seq<ListHead>, dt: map<ListHead, Item>, at: nat, c: Tally): Tally
    requires |s| >= 2 && at <= |s| && Cells(s) <= dt.Keys
  {
    assert forall x | x in s :: x in Cells(s);
    if at == |s| then c.Missing(dt[s[|s| - 2]].data16) else c.Finding(dt[s[at]].data16)
  }

  // Counting, once the list s has been reversed.
  method CountRound(list: ListHead?, found: ListHead?, c0: Tally,
                    ghost s: seq<ListHead>, ghost dt: map<ListHead, Item>, ghost at: nat)
    returns (c: Tally)
    requires |s| >= 2 && at <= |s| && IsList(list, Reversed(s)) && dt == Data(Cells(s)) && Cells(s) <= dt.Keys
    requires found == Front(s[at..], null)
    ensures c == Counted(s, dt, at, c0)
  {
    hide NoDup, Path, Data, Tally.Missing, Tally.Finding;
    DataAt(s, if at == |s| then |s| - 2 else at);
    if found == null {
      LinkAt(Reversed(s), 0, null);
      c := c0.Missing(list.next.info.data16);
    } else {
      c := c0.Finding(found.info.data16);
    }
  }

  // One round of the benchmark on the list s; dt is what the cells hold.
  method FindAndReverse(list0: ListHead?, idx: int16, data: bv16, c0: Tally,
                        ghost s: seq<ListHead>, ghost dt: map<ListHead, Item>)
    returns (list: ListHead?, c: Tally)
    requires IsList(list0, s) && |s| >= 2 && dt == Data(Cells(s)) && Cells(s) <= dt.Keys
    modifies Cells(s)`next
    ensures IsList(list, Round(s, FindAt(s, dt, idx, data)))
    ensures c == Counted(s, dt, FindAt(s, dt, idx, data), c0)
  {
    hide NoDup, Path, Data, FindAt, Counted;
    assert forall x | x in Infos(Cells(s)) :: x.idx == x.idx;
    var found := Find(list0, idx, data, s);
    ghost var at := FindAt(s, dt, idx, data);
    ghost var r := Reversed(s);
    SameCells(r, s);
    list := Reverse(list0, s);
    c := CountRound(list, found, c0, s, dt, at);
    if found != null {
      ghost var k := |s| - 1 - at;
      LinkAt(r, k, null);
      if found.next != null {
        Relink(list, found, r, k);
      }
    }
  }

  lemma DataAt(s: seq<ListHead>, k: nat)
    requires k < |s|
    ensures s[k] in Data(Cells(s)) && Data(Cells(s))[s[k]] == Item(s[k].info.data16, s[k].info.idx)
  {
    assert s[k] in Cells(s);
  }

  lemma SameCells(r: seq<ListHead>, s: seq<ListHead>)
    requires r == Reversed(s)
    ensures forall x | x in r :: x in s
  {
    ReversedPermutes(s);
    forall x | x in r
      ensures x in s
    {
      assert x in multiset(r) && x in multiset(s);
    }
  }

  // The item looked for after all rounds.
  ghost function Sought(idx: int16, data: bv16, i: nat, n: int): (int16, bv16)
    decreases n - i
  {
    if i >= n then (idx, data) else Sought(NextIdx(idx), ByteOf(i), i + 1, n)
  }

  // An index that is looked for counts up with the rounds, until it wraps and data are looked
  // for; these are the low byte of the number of the round.
  lemma {:induction false} SoughtAfter(idx: int16, data: bv16, i: nat, n: int)
    ensures Sought(idx, data, i, n).0
            == if idx < 0 || i >= n then idx else if idx + (n - i) < 0x8000 then idx + (n - i) else -0x8000
    ensures i < n ==> Sought(idx, data, i, n).1 == ByteOf(n - 1)
    decreases n - i
  {
    if i < n {
      SoughtAfter(NextIdx(idx), ByteOf(i), i + 1, n);
    }
  }

  // The data looked for run through the bytes, one a round.
  lemma BytesInOrder(i: nat)
    ensures ByteOf(0) == 0 && ByteOf(i) < 0x100
    ensures ByteOf(i + 1) == if ByteOf(i) == 0xff then 0 else ByteOf(i) + 1
  {
    NextByte(Times(i));
  }

  lemma NextByte(x: bv16)
    ensures (x + 1) & 0xff == if x & 0xff == 0xff then 0 else (x & 0xff) + 1
  {
  }

  // What rounds i up to n count.
  ghost function Count(s: seq<ListHead>, dt: map<ListHead, Item>, idx: int16, i: nat, n: int, c: Tally): Tally
    requires |s| >= 2 && Cells(s) <= dt.Keys
    decreases n - i
  {
    if i >= n then c
    else
      var at := FindAt(s, dt, idx, ByteOf(i));
      RoundPermutes(s, at);
      CellsOfPermuted(Round(s, at), s);
      Count(Round(s, at), dt, NextIdx(idx), i + 1, n, Counted(s, dt, at, c))
  }

  lemma CountedOne(s: seq<ListHead>, dt: map<ListHead, Item>, at: nat, c: Tally)
    requires |s| >= 2 && at <= |s| && Cells(s) <= dt.Keys
    ensures var c' := Counted(s, dt, at, c);
            && Total(c') == Up(Total(c))
            && c'.found == if at < |s| then Up(c.found) else c.found
  {
    hide Tally.Missing, Tally.Finding, Total, Up;
    assert forall x | x in s :: x in Cells(s);
    TotalCounted(c, if at < |s| then dt[s[at]].data16 else dt[s[|s| - 2]].data16);
  }

  lemma TimesNext(x: bv16, k: nat)
    ensures Plus(Up(x), Times(k)) == Plus(x, Times(k + 1))
    ensures Plus(x, Times(0)) == x
  {
    OneMore(x, Times(k));
  }

  // Every round finds or misses.
  lemma {:induction false} EachRoundCounts(s: seq<ListHead>, dt: map<ListHead, Item>, idx: int16, i: nat, n: int,
                                           c: Tally)
    requires |s| >= 2 && Cells(s) <= dt.Keys && i <= n
    ensures var c' := Count(s, dt, idx, i, n, c);
            Total(c') == Plus(Total(c), Times(n - i))
    decreases n - i
  {
    hide FindAt, Round, Counted, Cells, ByteOf, NextIdx, Total, Times, Plus, Up;
    TimesNext(Total(c), if i < n then n - i - 1 else 0);
    if i < n {
      var at := FindAt(s, dt, idx, ByteOf(i));
      RoundPermutes(s, at);
      CellsOfPermuted(Round(s, at), s);
      CountedOne(s, dt, at, c);
      EachRoundCounts(Round(s, at), dt, NextIdx(idx), i + 1, n, Counted(s, dt, at, c));
    }
  }

  // All rounds.
  method FindRounds(list0: ListHead?, findNum: int16, finderIdx: int16, data0: bv16, ghost s: seq<ListHead>)
    returns (list: ListHead?, idx: int16, data: bv16, c: Tally, ghost t: seq<ListHead>)
    requires IsList(list0, s) && |s| >= 2
    modifies Cells(s)`next
    ensures Data(Cells(s)) == old(Data(Cells(s)))
    ensures t == Rounds(s, Data(Cells(s)), finderIdx, 0, findNum)
    ensures IsList(list, t) && multiset(t) == multiset(s)
    ensures (idx, data) == Sought(finderIdx, data0, 0, findNum)
    ensures Cells(s) <= Data(Cells(s)).Keys
    ensures c == Count(s, Data(Cells(s)), finderIdx, 0, findNum, Tally(0, 0, 0))
  {
    hide IsList, Data, Rounds, Cells, Count, Sought, Counted, FindAt, Round, ByteOf, NextIdx;
    list, t := list0, s;
    DataKeys(Cells(s));
    idx, data, c := finderIdx, data0, Tally(0, 0, 0);
    var i := 0;
    ghost var dt := Data(Cells(s));
    assert forall x | x in Infos(Cells(s)) :: x.idx == x.idx;
    while i < findNum
      invariant 0 <= i && (i <= findNum || i == 0)
      invariant IsList(list, t) && multiset(t) == multiset(s)
      invariant dt == Data(Cells(s))
      invariant Cells(t) == Cells(s) && |t| == |s|
      invariant Rounds(t, dt, idx, i, findNum) == Rounds(s, dt, finderIdx, 0, findNum)
      invariant Count(t, dt, idx, i, findNum, c) == Count(s, dt, finderIdx, 0, findNum, Tally(0, 0, 0))
      invariant Sought(idx, data, i, findNum) == Sought(finderIdx, data0, 0, findNum)
    {
      RoundPermutes(t, FindAt(t, dt, idx, ByteOf(i)));
      CellsOfPermuted(Round(t, FindAt(t, dt, idx, ByteOf(i))), t);
      CellsOfPermuted(t, s);
      RoundsStep(t, dt, idx, i, findNum);
      CountStep(t, dt, idx, data, i, findNum, c);
      data := ByteOf(i);
      list, c := FindAndReverse(list, idx, data, c, t, dt);
      t := Round(t, FindAt(t, dt, idx, ByteOf(i)));
      idx := NextIdx(idx);
      i := i + 1;
    }
    RoundsEnd(t, dt, idx, i, findNum);
    CountEnd(t, dt, idx, data, i, findNum, c);
  }

  lemma CountStep(t: seq<ListHead>, dt: map<ListHead, Item>, idx: int16, data: bv16, i: nat, n: int, c: Tally)
    requires |t| >= 2 && Cells(t) <= dt.Keys && i < n
    ensures var at := FindAt(t, dt, idx, ByteOf(i));
            && |Round(t, at)| >= 2 && Cells(Round(t, at)) <= dt.Keys
            && Count(t, dt, idx, i, n, c)
               == Count(Round(t, at), dt, NextIdx(idx), i + 1, n, Counted(t, dt, at, c))
    ensures Sought(idx, data, i, n) == Sought(NextIdx(idx), ByteOf(i), i + 1, n)
  {
    var at := FindAt(t, dt, idx, ByteOf(i));
    RoundPermutes(t, at);
    CellsOfPermuted(Round(t, at), t);
  }

  lemma CountEnd(t: seq<ListHead>, dt: map<ListHead, Item>, idx: int16, data: bv16, i: nat, n: int, c: Tally)
    requires |t| >= 2 && Cells(t) <= dt.Keys && i >= n
    ensures Count(t, dt, idx, i, n, c) == c && Sought(idx, data, i, n) == (idx, data)
  {
  }

  lemma CellsOfPermuted(t: seq<ListHead>, s: seq<ListHead>)
    requires multiset(t) == multiset(s)
    ensures Cells(t) == Cells(s) && |t| == |s|
    ensures forall x | x in t :: x in s
  {
    CellsWithin(t, [], s);
    CellsWithin(s, [], t);
    assert |multiset(t)| == |multiset(s)|;
    forall x | x in t
      ensures x in s
    {
      assert x in multiset(t) && x in multiset(s);
    }
  }

  lemma RoundsStep(t: seq<ListHead>, dt: map<ListHead, Item>, idx: int16, i: nat, n: int)
    requires i < n
    ensures Rounds(t, dt, idx, i, n) == Rounds(Round(t, FindAt(t, dt, idx, ByteOf(i))), dt, NextIdx(idx), i + 1, n)
  {
  }

  lemma RoundsEnd(t: seq<ListHead>, dt: map<ListHead, Item>, idx: int16, i: nat, n: int)
    requires i >= n
    ensures Rounds(t, dt, idx, i, n) == t
  {
  }

  // ----- Removing the second cell's item -----

  // Which item each cell points to.
  ghost function Bindings(nodes: set<ListHead>): map<ListHead, ListData>
    reads nodes`info
  {
    map x | x in nodes :: x.info
  }

  method RemoveSecond(list: ListHead, ghost m: seq<ListHead>) returns (removed: ListHead)
    requires IsList(list, m) && |m| >= 3
    modifies m[1], m[2]
    ensures removed == m[2] && IsList(list, CellsLeft(m))
    ensures m[1].info == old(m[2].info) && m[2].info == old(m[1].info)
  {
    LinkAt(m, 0, null);
    LinkAt(m, 1, null);
    LinkAt(m, 2, null);
    removed := Remove(list.next);
    ghost var c := CellsLeft(m);
    forall i: nat | i < |c|
      ensures Link(c, i, null)
    {
      assert old(Link(m, if i < 2 then i else i + 1, null));
    }
  }

  method RestoreSecond(list: ListHead, removed: ListHead, ghost m: seq<ListHead>)
    requires |m| >= 3 && NoDup(m) && IsList(list, CellsLeft(m)) && removed == m[2]
    modifies m[1], m[2]
    ensures IsList(list, m)
    ensures m[1].info == old(m[2].info) && m[2].info == old(m[1].info)
  {
    ghost var c := CellsLeft(m);
    LinkAt(c, 0, null);
    LinkAt(c, 1, null);
    var r := UndoRemove(removed, list.next);
    forall i: nat | i < |m|
      ensures Link(m, i, null)
    {
      if i != 2 {
        assert old(Link(c, if i < 2 then i else i - 1, null));
      }
    }
  }

  lemma ListStarts(list: ListHead?, m: seq<ListHead>)
    requires IsList(list, m) && m != []
    ensures list == m[0]
  {
  }

  // The checksum after n more steps, each with the same datum.
  function CrcTimes(crc: (bv16, bv16) -> bv16, d: bv16, n: nat, r: bv16): bv16
  {
    if n == 0 then r else CrcTimes(crc, d, n - 1, crc(d, r))
  }

  // The last of the steps: each works the datum into the checksum so far.
  lemma {:induction false} CrcLast(crc: (bv16, bv16) -> bv16, d: bv16, n: nat, r: bv16)
    ensures CrcTimes(crc, d, 0, r) == r
    ensures CrcTimes(crc, d, n + 1, r) == crc(d, CrcTimes(crc, d, n, r))
    decreases n
  {
    if n > 0 {
      CrcLast(crc, d, n - 1, crc(d, r));
    }
  }

  // The walk over the cells r takes the datum of the first cell of the list at every step.
  method Walk(list: ListHead, finder0: ListHead?, crc: (bv16, bv16) -> bv16, retval0: bv16, ghost r: seq<ListHead>)
    returns (retval: bv16)
    requires Path(r, null) && finder0 == Front(r, null)
    ensures retval == CrcTimes(crc, list.info.data16, |r|, retval0)
  {
    retval := retval0;
    var finder := finder0;
    ghost var rest := r;
    while finder != null
      invariant Path(rest, null) && finder == Front(rest, null)
      invariant CrcTimes(crc, list.info.data16, |rest|, retval) == CrcTimes(crc, list.info.data16, |r|, retval0)
      decreases |rest|
    {
      PathTail(rest, null);
      retval := crc(list.info.data16, retval);
      finder := finder.next;
      rest := rest[1..];
    }
  }

  // The walk from the second cell on.
  method WalkAll(list: ListHead, crc: (bv16, bv16) -> bv16, retval0: bv16,
                 ghost t: seq<ListHead>, ghost dt: map<ListHead, Item>)
    returns (retval: bv16)
    requires IsList(list, t) && t != [] && dt == Data(Cells(t))
    ensures Data(Cells(t)) == dt && IsList(list, t)
    ensures t[0] in dt && retval == CrcTimes(crc, dt[t[0]].data16, |t| - 1, retval0)
  {
    assert t[0] in Cells(t);
    PathTail(t, null);
    retval := Walk(list, list.next, crc, retval0, t[1..]);
  }

  // The cells left in the list, and what they hold: the item of the second cell is out.
  function CellsLeft(m: seq<ListHead>): seq<ListHead>
    requires |m| >= 3
  {
    m[..2] + m[3..]
  }

  ghost function ItemsLeft(m: seq<ListHead>, dt: map<ListHead, Item>): map<ListHead, Item>
    requires |m| >= 3 && Cells(m) <= dt.Keys
  {
    assert forall x | x in CellsLeft(m) :: x in Cells(m);
    assert m[2] in Cells(m);
    map x | x in CellsLeft(m) :: if x == m[1] then dt[m[2]] else dt[x]
  }

  // The walk goes from the cell found to the end, or from the second cell if none is.
  ghost function WalkLength(m: seq<ListHead>, dt: map<ListHead, Item>, idx: int16, data: bv16): nat
    requires |m| >= 3 && Cells(m) <= dt.Keys
  {
    var c := CellsLeft(m);
    var at := FindAt(c, ItemsLeft(m, dt), idx, data);
    if at < |c| then |c| - at else |c| - 1
  }

  // The find and the walk while the cell is out.
  method FindAndWalk(list: ListHead, idx: int16, data: bv16, crc: (bv16, bv16) -> bv16, retval0: bv16,
                     ghost c: seq<ListHead>, ghost dt: map<ListHead, Item>)
    returns (retval: bv16)
    requires IsList(list, c) && |c| >= 2 && dt == Data(Cells(c))
    ensures var at := FindAt(c, dt, idx, data);
            retval == CrcTimes(crc, list.info.data16, if at < |c| then |c| - at else |c| - 1, retval0)
  {
    hide Data, FindAt, NoDup, CrcTimes;
    ghost var at := FindAt(c, dt, idx, data);
    var finder := Find(list, idx, data, c);
    PathTail(c, null);
    if finder == null {
      finder := list.next;
      retval := Walk(list, finder, crc, retval0, c[1..]);
    } else {
      assert c == c[..at] + c[at..];
      PathSplit(c[..at], c[at..], null);
      retval := Walk(list, finder, crc, retval0, c[at..]);
    }
  }

  // Take the cell out, find and walk.
  method RemoveAndWalk(list: ListHead, idx: int16, data: bv16, crc: (bv16, bv16) -> bv16, retval0: bv16,
                       ghost m: seq<ListHead>, ghost dt: map<ListHead, Item>)
    returns (removed: ListHead, retval: bv16)
    requires IsList(list, m) && |m| >= 3 && dt == Data(Cells(m)) && Cells(m) <= dt.Keys && m[0] in dt
    modifies m[1], m[2]
    ensures removed == m[2] && IsList(list, CellsLeft(m))
    ensures m[1].info == old(m[2].info) && m[2].info == old(m[1].info)
    ensures retval == CrcTimes(crc, dt[m[0]].data16, WalkLength(m, dt, idx, data), retval0)
  {
    hide IsList, CrcTimes, FindAt;
    assert m[0] in Cells(m) && m[1] in Cells(m) && m[2] in Cells(m);
    assert NoDup(m) by { ListNoDup(list, m); }
    assert list == m[0] by { ListStarts(list, m); }
    removed := RemoveSecond(list, m);
    ghost var c := CellsLeft(m);
    assert Data(Cells(c)) == ItemsLeft(m, dt);
    retval := FindAndWalk(list, idx, data, crc, retval0, c, ItemsLeft(m, dt));
  }

  // Putting the cell back leaves the list and everything its cells hold as they were.
  method RemoveAndRestore(list: ListHead, idx: int16, data: bv16, crc: (bv16, bv16) -> bv16, retval0: bv16,
                          ghost m: seq<ListHead>, ghost dt: map<ListHead, Item>)
    returns (retval: bv16)
    requires IsList(list, m) && |m| >= 3 && OwnInfos(Cells(m))
    requires dt == Data(Cells(m)) && Cells(m) <= dt.Keys && m[0] in dt
    modifies Cells(m)
    ensures retval == CrcTimes(crc, dt[m[0]].data16, WalkLength(m, dt, idx, data), retval0)
    ensures IsList(list, m)
    ensures Bindings(Cells(m)) == old(Bindings(Cells(m))) && Infos(Cells(m)) == old(Infos(Cells(m)))
    ensures Data(Cells(m)) == dt && OwnInfos(Cells(m))
  {
    hide IsList, CrcTimes, WalkLength;
    assert NoDup(m) by { ListNoDup(list, m); }
    assert m[1] in Cells(m) && m[2] in Cells(m);
    var removed;
    removed, retval := RemoveAndWalk(list, idx, data, crc, retval0, m, dt);
    RestoreSecond(list, removed, m);
  }

  // ----- The order at the end -----

  lemma SortedHead(o: Order<ListHead>, s: seq<ListHead>, t: seq<ListHead>)
    requires o.Sorted(s) && o.Sorted(t) && multiset(s) == multiset(t) && s != [] && t != []
    ensures s[0] == t[0]
  {
    assert s[0] in multiset(s) && t[0] in multiset(t);
    assert s[0] in t && t[0] in s;
    var i :| 0 <= i < |s| && s[i] == t[0];
    var j :| 0 <= j < |t| && t[j] == s[0];
    assert i > 0 ==> o.Less(s[0], s[i]);
    assert j > 0 ==> o.Less(t[0], t[j]);
  }

  // There is one sorted arrangement only.
  lemma {:induction false} SortedUnique(o: Order<ListHead>, s: seq<ListHead>, t: seq<ListHead>)
    requires o.Sorted(s) && o.Sorted(t) && multiset(s) == multiset(t)
    ensures s == t
    decreases |s|
  {
    hide Order.Less;
    assert |multiset(s)| == |s| && |multiset(t)| == |t|;
    if s != [] {
      SortedHead(o, s, t);
      assert s == [s[0]] + s[1..] && t == [t[0]] + t[1..];
      assert multiset(s[1..]) == multiset(s) - multiset{s[0]};
      assert multiset(t[1..]) == multiset(t) - multiset{t[0]};
      SortedUnique(o, s[1..], t[1..]);
    }
  }

  ghost predicate Below(dt: map<ListHead, Item>, x: ListHead, y: ListHead)
  {
    x in dt && y in dt && dt[x].idx < dt[y].idx
  }

  ghost predicate Increasing(s: seq<ListHead>, dt: map<ListHead, Item>)
  {
    forall i, j | 0 <= i < j < |s| :: Below(dt, s[i], s[j])
  }

  ghost predicate NonDecreasing(s: seq<ListHead>, dt: map<ListHead, Item>)
  {
    && (forall x | x in s :: x in dt)
    && forall i, j | 0 <= i < j < |s| :: !Below(dt, s[j], s[i])
  }

  // A list that starts in strictly increasing order comes out of the sort by index as it was,
  // whatever has happened to it in between.
  lemma IncreasingIsSorted(s: seq<ListHead>, dt: map<ListHead, Item>, mid: seq<ListHead>)
    requires Increasing(s, dt) && multiset(mid) == multiset(s)
    ensures StablySorted(s, dt, CmpIdx, true, mid)
  {
    var o := OrderOf(dt, CmpIdx, true, Positions(mid));
    forall i, j | 0 <= i < j < |s|
      ensures o.Less(s[i], s[j])
    {
      assert Below(dt, s[i], s[j]);
      assert s[i] in multiset(mid) && s[j] in multiset(mid);
      assert s[i] in Positions(mid) && s[j] in Positions(mid);
    }
  }

  // Any list that the sort leaves as it was is in order.
  lemma SortedIsNonDecreasing(s: seq<ListHead>, dt: map<ListHead, Item>, mid: seq<ListHead>)
    requires StablySorted(s, dt, CmpIdx, true, mid) && Cells(s) <= dt.Keys
    ensures NonDecreasing(s, dt)
  {
    hide Positions;
    var o := OrderOf(dt, CmpIdx, true, Positions(mid));
    forall i, j | 0 <= i < j < |s|
      ensures !Below(dt, s[j], s[i])
    {
      assert o.Less(s[i], s[j]);
    }
    forall x | x in s
      ensures x in dt
    {
      assert x in Cells(s);
    }
  }

  // The sort by index brings the list s back exactly when s is its own stable sort, given
  // the order mid in which the cells reach the sort.
  lemma BroughtBack(s: seq<ListHead>, t: seq<ListHead>, dt: map<ListHead, Item>, mid: seq<ListHead>)
    requires StablySorted(t, dt, CmpIdx, true, mid) && multiset(t) == multiset(s)
    ensures t == s <==> StablySorted(s, dt, CmpIdx, true, mid)
  {
    if StablySorted(s, dt, CmpIdx, true, mid) {
      SortedUnique(OrderOf(dt, CmpIdx, true, Positions(mid)), s, t);
    }
  }

  // Whether x stands in front of y in a list.
  ghost predicate Precedes(s: seq<ListHead>, x: ListHead, y: ListHead)
  {
    x in s && y in s && IndexOf(s, x) < IndexOf(s, y)
  }

  // Whether two cells with the same index end up with x in front, told from the data before:
  // by value first if the list is sorted by value in between, then by their order after the
  // rounds of find and reverse.
  ghost predicate TieKept(dt: map<ListHead, Item>, byValue: bool, rounds: seq<ListHead>, x: ListHead, y: ListHead)
    requires x in dt && y in dt
  {
    var u, v := Key(CmpComplex, dt[x].data16, dt[x].idx), Key(CmpComplex, dt[y].data16, dt[y].idx);
    if byValue && u != v then u < v else Precedes(rounds, x, y)
  }

  ghost predicate PairKept(dt: map<ListHead, Item>, byValue: bool, rounds: seq<ListHead>, x: ListHead, y: ListHead)
  {
    && x in dt && y in dt
    && (dt[x].idx < dt[y].idx || (dt[x].idx == dt[y].idx && TieKept(dt, byValue, rounds, x, y)))
  }

  // Only the values that a kernel is still to compute cannot be told beforehand, and they
  // matter only for cells with the same index.
  ghost predicate Foreseen(dt: map<ListHead, Item>, byValue: bool, x: ListHead, y: ListHead)
  {
    x in dt && y in dt && byValue && dt[x].idx == dt[y].idx ==>
      Fixed(CmpComplex, dt[x].data16) && Fixed(CmpComplex, dt[y].data16)
  }

  ghost predicate AllForeseen(s: seq<ListHead>, dt: map<ListHead, Item>, byValue: bool)
  {
    forall i, j | 0 <= i < j < |s| :: Foreseen(dt, byValue, s[i], s[j])
  }

  ghost predicate AllKept(s: seq<ListHead>, dt: map<ListHead, Item>, byValue: bool, rounds: seq<ListHead>)
  {
    forall i, j | 0 <= i < j < |s| :: PairKept(dt, byValue, rounds, s[i], s[j])
  }

  ghost predicate ForeseenKept(s: seq<ListHead>, dt: map<ListHead, Item>, byValue: bool, rounds: seq<ListHead>)
  {
    forall i, j | 0 <= i < j < |s| ::
      Foreseen(dt, byValue, s[i], s[j]) ==> PairKept(dt, byValue, rounds, s[i], s[j])
  }

  // How the list that reaches the sort by index came out of the rounds.
  ghost predicate Reaches(mid: seq<ListHead>, dtMid: map<ListHead, Item>, dt: map<ListHead, Item>, byValue: bool,
                          rounds: seq<ListHead>)
  {
    && multiset(mid) == multiset(rounds) && LowOnly(dt, dtMid)
    && if byValue then
         && StablySorted(mid, dtMid, CmpComplex, false, rounds)
         && OrderOf(dtMid, CmpComplex, false, Positions(rounds)).Extends(
              OrderOf(dt, CmpComplex, false, Positions(rounds)))
       else mid == rounds
  }

  lemma ReachedTie(mid: seq<ListHead>, dtMid: map<ListHead, Item>, dt: map<ListHead, Item>, byValue: bool,
                   rounds: seq<ListHead>, x: ListHead, y: ListHead)
    requires Reaches(mid, dtMid, dt, byValue, rounds) && x in dt && y in dt && x in mid && y in mid && x != y
    requires dt[x].idx == dt[y].idx && Foreseen(dt, byValue, x, y)
    ensures Precedes(mid, x, y) <==> TieKept(dt, byValue, rounds, x, y)
  {
    hide Key, Fixed, HighByte;
    assert x in multiset(rounds) && y in multiset(rounds);
    var i, j := IndexOf(mid, x), IndexOf(mid, y);
    if byValue {
      var o := OrderOf(dtMid, CmpComplex, false, Positions(rounds));
      assert if i < j then o.Less(mid[i], mid[j]) else o.Less(mid[j], mid[i]);
    }
  }

  // The end result told from the data before: exact where all ties are foreseen, and no tie
  // that is foreseen can go the other way.
  lemma RestoredExactly(s: seq<ListHead>, t: seq<ListHead>, dt: map<ListHead, Item>, dtMid: map<ListHead, Item>,
                        dtEnd: map<ListHead, Item>, byValue: bool, rounds: seq<ListHead>, mid: seq<ListHead>)
    requires NoDup(s) && dt.Keys == Cells(s) && Reaches(mid, dtMid, dt, byValue, rounds) && LowOnly(dtMid, dtEnd)
    requires StablySorted(t, dtEnd, CmpIdx, true, mid) && multiset(t) == multiset(s) == multiset(mid)
    ensures AllForeseen(s, dt, byValue) ==> (t == s <==> AllKept(s, dt, byValue, rounds))
    ensures t == s ==> ForeseenKept(s, dt, byValue, rounds)
  {
    hide Reaches, LowOnly, StablySorted, Foreseen, PairKept, Cells, NoDup, OrderOf, Positions;
    BroughtBack(s, t, dtEnd, mid);
    forall i, j | 0 <= i < j < |s| && Foreseen(dt, byValue, s[i], s[j])
      ensures Sooner(dtEnd, mid, s[i], s[j]) <==> PairKept(dt, byValue, rounds, s[i], s[j])
    {
      ReachedPair(s, dt, dtMid, dtEnd, byValue, rounds, mid, i, j);
    }
    StableByPairs(s, dtEnd, mid);
  }

  // In front in the order of the sort by index.
  ghost predicate Sooner(dt: map<ListHead, Item>, mid: seq<ListHead>, x: ListHead, y: ListHead)
  {
    OrderOf(dt, CmpIdx, true, Positions(mid)).Less(x, y)
  }

  lemma StableByPairs(s: seq<ListHead>, dt: map<ListHead, Item>, mid: seq<ListHead>)
    ensures StablySorted(s, dt, CmpIdx, true, mid) <==> forall i, j | 0 <= i < j < |s| :: Sooner(dt, mid, s[i], s[j])
  {
    hide OrderOf, Positions;
  }

  lemma ReachedPair(s: seq<ListHead>, dt: map<ListHead, Item>, dtMid: map<ListHead, Item>, dtEnd: map<ListHead, Item>,
                    byValue: bool, rounds: seq<ListHead>, mid: seq<ListHead>, i: nat, j: nat)
    requires NoDup(s) && dt.Keys == Cells(s) && Reaches(mid, dtMid, dt, byValue, rounds) && LowOnly(dtMid, dtEnd)
    requires multiset(s) == multiset(mid) && i < j < |s| && Foreseen(dt, byValue, s[i], s[j])
    ensures Sooner(dtEnd, mid, s[i], s[j]) <==> PairKept(dt, byValue, rounds, s[i], s[j])
  {
    var x, y := s[i], s[j];
    assert x in multiset(mid) && y in multiset(mid);
    assert x in Cells(s) && y in Cells(s) && x != y;
    hide TieKept, HighByte, NoDup, Cells;
    if dt[x].idx == dt[y].idx {
      ReachedTie(mid, dtMid, dt, byValue, rounds, x, y);
    }
  }

  // Cells with the same index can come out exchanged: one round that finds nothing reverses
  // the list, and the sort keeps ties as it meets them.
  lemma TiesStayReversed(h: ListHead, x: ListHead, y: ListHead, z: ListHead, dt: map<ListHead, Item>)
    requires NoDup([h, x, y, z]) && dt.Keys == {h, x, y, z}
    requires dt[h] == Item(0x8080, 0) && dt[z] == Item(0xffff, 0x7fff)
    requires dt[x] == Item(0x0101, 3) && dt[y] == Item(0x0202, 3)
    ensures NonDecreasing([h, x, y, z], dt)
    ensures Rounds([h, x, y, z], dt, -1, 0, 1) == [z, y, x, h]
    ensures !StablySorted([h, x, y, z], dt, CmpIdx, true, Rounds([h, x, y, z], dt, -1, 0, 1))
    ensures !AllKept([h, x, y, z], dt, false, Rounds([h, x, y, z], dt, -1, 0, 1))
  {
    var s, mid := [h, x, y, z], [z, y, x, h];
    assert forall i | 0 <= i < 4 :: !Matches(dt[s[i]], -1, ByteOf(0));
    assert FindAt(s, dt, -1, ByteOf(0)) == 4;
    assert Round(s, 4) == mid;
    RoundsStep(s, dt, -1, 0, 1);
    RoundsEnd(mid, dt, -1, 1, 1);
    var o := OrderOf(dt, CmpIdx, true, Positions(mid));
    assert NoDup(mid);
    PositionsAre(mid, 1);
    PositionsAre(mid, 2);
    assert s[1] == mid[2] && s[2] == mid[1];
    assert !o.Less(s[1], s[2]);
    assert !PairKept(dt, false, mid, s[1], s[2]);
  }

  // ----- The whole step -----

  ghost function RestoredData(dt: map<ListHead, Item>): map<ListHead, Item>
  {
    map x | x in dt :: Item(Restored(dt[x].data16), dt[x].idx)
  }

  // After the sort by index every low byte has been rebuilt, whatever it was.
  lemma AllRestored(t: seq<ListHead>, dt: map<ListHead, Item>, dt': map<ListHead, Item>)
    requires LowOnly(dt, dt') && Cells(t) == dt.Keys && AllSettled(t, dt', CmpIdx, true)
    ensures dt' == RestoredData(dt)
  {
    hide HighByte, Restored;
    forall x | x in dt
      ensures dt'[x] == Item(Restored(dt[x].data16), dt[x].idx)
    {
      assert x in t;
      RestoredFrom(dt'[x].data16, dt[x].data16);
    }
  }

  lemma AllIn(m: seq<ListHead>, dt: map<ListHead, Item>)
    requires m != [] && Cells(m) == dt.Keys
    ensures m[0] in dt
  {
    assert m[0] in Cells(m);
  }

  // The value returned: what the rounds count, and the checksum of the first item, once for
  // every step of the walk in the middle and of the walk at the end.
  ghost predicate Checksum(retval: bv16, crc: (bv16, bv16) -> bv16, s: seq<ListHead>, dt: map<ListHead, Item>,
                           mid: seq<ListHead>, dtMid: map<ListHead, Item>,
                           t: seq<ListHead>, dtEnd: map<ListHead, Item>, idx0: int16, data0: bv16, n: int16)
  {
    && |s| >= 2 && Cells(s) <= dt.Keys && |mid| >= 3 && Cells(mid) <= dtMid.Keys && mid[0] in dtMid
    && |t| >= 1 && t[0] in dtEnd
    && var counted := Count(s, dt, idx0, 0, n, Tally(0, 0, 0)).Summed();
       var (idx, data) := Sought(idx0, data0, 0, n);
       var walked := CrcTimes(crc, dtMid[mid[0]].data16, WalkLength(mid, dtMid, idx, data), counted);
       retval == CrcTimes(crc, dtEnd[t[0]].data16, |t| - 1, walked)
  }

  lemma ChecksumIs(retval: bv16, walked: bv16, crc: (bv16, bv16) -> bv16, s: seq<ListHead>, dt: map<ListHead, Item>,
                   mid: seq<ListHead>, dtMid: map<ListHead, Item>, t: seq<ListHead>, dtEnd: map<ListHead, Item>,
                   idx0: int16, data0: bv16, n: int16, c: Tally)
    requires |s| >= 2 && Cells(s) <= dt.Keys && |mid| >= 3 && Cells(mid) <= dtMid.Keys && mid[0] in dtMid
    requires |t| >= 1 && t[0] in dtEnd && c == Count(s, dt, idx0, 0, n, Tally(0, 0, 0))
    requires var (idx, data) := Sought(idx0, data0, 0, n);
             walked == CrcTimes(crc, dtMid[mid[0]].data16, WalkLength(mid, dtMid, idx, data), c.Summed())
    requires retval == CrcTimes(crc, dtEnd[t[0]].data16, |t| - 1, walked)
    ensures Checksum(retval, crc, s, dt, mid, dtMid, t, dtEnd, idx0, data0, n)
  {
  }

  // The sort by index, and the walk over the list that it gives.
  method SortBack(list0: ListHead, crc: (bv16, bv16) -> bv16, retval0: bv16,
                  ghost mid: seq<ListHead>, ghost dtMid: map<ListHead, Item>)
    returns (list: ListHead?, retval: bv16, ghost t: seq<ListHead>)
    requires IsList(list0, mid) && |mid| > 1 && OwnInfos(Cells(mid)) && dtMid == Data(Cells(mid))
    modifies Cells(mid)`next, Infos(Cells(mid))`data16
    ensures IsList(list, t) && multiset(t) == multiset(mid) && LowOnly(dtMid, Data(Cells(mid)))
    ensures StablySorted(t, Data(Cells(mid)), CmpIdx, true, mid) && AllSettled(t, Data(Cells(mid)), CmpIdx, true)
    ensures t != [] && t[0] in Data(Cells(mid))
    ensures retval == CrcTimes(crc, Data(Cells(mid))[t[0]].data16, |t| - 1, retval0)
  {
    hide IsList, Data, OwnInfos, LowOnly, AllSettled, StablySorted, Cells, OrderOf, Order.Extends, CrcTimes;
    list, t := MergeSort(list0, CmpIdx, null, mid);
    CellsOfPermuted(t, mid);
    assert list != null by { ListStarts(list, t); }
    retval := WalkAll(list, crc, retval0, t, Data(Cells(t)));
  }

  method BenchList(res: CoreResults, list0: ListHead, findNum: int16, finderIdx: int16, data0: bv16,
                   ghost s: seq<ListHead>)
    returns (retval: bv16, list: ListHead?, ghost t: seq<ListHead>, ghost mid: seq<ListHead>,
             ghost dtMid: map<ListHead, Item>)
    requires IsList(list0, s) && |s| >= 3 && OwnInfos(Cells(s))
    modifies Cells(s), Infos(Cells(s))`data16, res
    ensures IsList(list, t) && multiset(t) == multiset(s)
    ensures Bindings(Cells(s)) == old(Bindings(Cells(s)))
    ensures Data(Cells(s)) == RestoredData(old(Data(Cells(s))))
    ensures StablySorted(t, Data(Cells(s)), CmpIdx, true, mid) && multiset(mid) == multiset(s)
    ensures var rounds := Rounds(s, old(Data(Cells(s))), finderIdx, 0, findNum);
            if finderIdx > 0 then
              LowOnly(old(Data(Cells(s))), dtMid) && StablySorted(mid, dtMid, CmpComplex, false, rounds)
            else mid == rounds
    ensures t == s <==> StablySorted(s, Data(Cells(s)), CmpIdx, true, mid)
    ensures Increasing(s, old(Data(Cells(s)))) ==> t == s
    ensures var dt := old(Data(Cells(s)));
            var rounds := Rounds(s, dt, finderIdx, 0, findNum);
            && (AllForeseen(s, dt, finderIdx > 0) ==> (t == s <==> AllKept(s, dt, finderIdx > 0, rounds)))
            && (t == s ==> ForeseenKept(s, dt, finderIdx > 0, rounds))
    ensures Checksum(retval, res.crcu16, s, old(Data(Cells(s))), mid, dtMid, t, Data(Cells(s)), finderIdx, data0,
                     findNum)
  {
    hide IsList, Data, OwnInfos, Rounds, LowOnly, AllSettled, StablySorted, Increasing, RestoredData, Bindings, Cells,
         NoDup, Reaches, AllForeseen, AllKept, ForeseenKept, Order.Extends, OrderOf, Count, Sought, WalkLength,
         CrcTimes, Checksum, Tally.Summed;
    ghost var dt := Data(Cells(s));
    ListNoDup(list0, s);
    var idx, data, c;
    list, idx, data, c, mid := FindRounds(list0, findNum, finderIdx, data0, s);
    CellsOfPermuted(mid, s);
    dtMid := Data(Cells(s));
    LowSelf(dt);
    DataKeys(Cells(s));
    ghost var rounds := mid;
    if finderIdx > 0 {
      list, mid := MergeSort(list, CmpComplex, res, mid);
      CellsOfPermuted(mid, s);
      dtMid := Data(Cells(s));
      DataKeys(Cells(s));
    }
    assert Reaches(mid, dtMid, dt, finderIdx > 0, rounds) by {
      Reached(mid, dtMid, dt, finderIdx > 0, rounds);
    }
    assert list != null by { ListStarts(list, mid); }
    assert Cells(mid) <= dtMid.Keys && mid[0] in dtMid by { AllIn(mid, dtMid); }
    retval := RemoveAndRestore(list, idx, data, res.crcu16, c.Summed(), mid, dtMid);
    ghost var walked := retval;
    list, retval, t := SortBack(list, res.crcu16, retval, mid, dtMid);
    CellsOfPermuted(t, s);
    DataKeys(Cells(s));
    ChecksumIs(retval, walked, res.crcu16, s, dt, mid, dtMid, t, Data(Cells(s)), finderIdx, data0, findNum, c);
    AtTheEnd(s, mid, t, dt, dtMid, Data(Cells(s)));
    RestoredExactly(s, t, dt, dtMid, Data(Cells(s)), finderIdx > 0, rounds, mid);
  }

  lemma Reached(mid: seq<ListHead>, dtMid: map<ListHead, Item>, dt: map<ListHead, Item>, byValue: bool,
                rounds: seq<ListHead>)
    requires multiset(mid) == multiset(rounds) && LowOnly(dt, dtMid) && (!byValue ==> mid == rounds)
    requires byValue ==>
               && StablySorted(mid, dtMid, CmpComplex, false, rounds)
               && OrderOf(dtMid, CmpComplex, false, Positions(rounds)).Extends(
                    OrderOf(dt, CmpComplex, false, Positions(rounds)))
    ensures Reaches(mid, dtMid, dt, byValue, rounds)
  {
    hide LowOnly, StablySorted, OrderOf, Positions, Order.Extends;
  }

  lemma AtTheEnd(s: seq<ListHead>, mid: seq<ListHead>, t: seq<ListHead>,
                 dt: map<ListHead, Item>, dtMid: map<ListHead, Item>, dtEnd: map<ListHead, Item>)
    requires LowOnly(dt, dtMid) && LowOnly(dtMid, dtEnd) && dt.Keys == Cells(s) == Cells(t)
    requires StablySorted(t, dtEnd, CmpIdx, true, mid) && AllSettled(t, dtEnd, CmpIdx, true)
    requires multiset(t) == multiset(s) && multiset(mid) == multiset(s)
    ensures dtEnd == RestoredData(dt) && (Increasing(s, dt) ==> t == s)
    ensures t == s <==> StablySorted(s, dtEnd, CmpIdx, true, mid)
  {
    hide LowOnly, AllSettled, StablySorted, Increasing, RestoredData;
    LowTrans(dt, dtMid, dtEnd);
    AllRestored(t, dt, dtEnd);
    BroughtBack(s, t, dtEnd, mid);
    if Increasing(s, dt) {
      SameIndices(s, dt, dtEnd);
      IncreasingIsSorted(s, dtEnd, mid);
    }
  }

  lemma SameIndices(s: seq<ListHead>, dt: map<ListHead, Item>, dt': map<ListHead, Item>)
    requires Increasing(s, dt) && LowOnly(dt, dt')
    ensures Increasing(s, dt')
  {
    hide HighByte;
    forall i, j | 0 <= i < j < |s|
      ensures Below(dt', s[i], s[j])
    {
      assert Below(dt, s[i], s[j]);
    }
  }
}
