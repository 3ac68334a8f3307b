/**
 Chains of list cells as sequences, and the operations that walk or reverse a chain.
 */
module ListLinks {
  import opened Basics
  import opened CoreList
  import opened ListOrder

  function Front(s: seq<ListHead>, last: ListHead?): ListHead?
  {
    if s == [] then last else s[0]
  }

  ghost predicate Link(s: seq<ListHead>, i: nat, last: ListHead?)
    requires i < |s|
    reads {s[i]}`next
  {
    s[i].next == if i + 1 < |s| then s[i + 1] else last
  }

  // Each cell of s points to the one behind it, and the last cell to `last`.
  ghost predicate Path(s: seq<ListHead>, last: ListHead?)
    reads s`next
  {
    forall i: nat | i < |s| :: Link(s, i, last)
  }

  // The null-terminated list that starts at head and has the cells s.
  ghost predicate IsList(head: ListHead?, s: seq<ListHead>)
    reads s`next
  {
    head == Front(s, null) && Path(s, null) && NoDup(s)
  }

  ghost function Cells(s: seq<ListHead>): set<ListHead> { set x | x in s }

  ghost function Infos(nodes: set<ListHead>): set<ListData>
    reads nodes`info
  {
    set x | x in nodes :: x.info
  }

  datatype Item = Item(data16: bv16, idx: int16)

  // What the cells hold in the present state.
  ghost function Data(nodes: set<ListHead>): map<ListHead, Item>
    reads nodes`info, Infos(nodes)`data16, Infos(nodes)`idx
  {
    map x | x in nodes :: Item(x.info.data16, x.info.idx)
  }

  lemma PathTail(s: seq<ListHead>, last: ListHead?)
    requires s != [] && Path(s, last)
    ensures Path(s[1..], last) && s[0].next == Front(s[1..], last)
  {
    assert Link(s, 0, last);
    var t := s[1..];
    forall i: nat | i < |t|
      ensures Link(t, i, last)
    {
      assert Link(s, i + 1, last);
    }
  }

  lemma PathSplit(s: seq<ListHead>, t: seq<ListHead>, last: ListHead?)
    ensures Path(s + t, last) <==> Path(s, Front(t, last)) && Path(t, last)
  {
    var st := s + t;
    if Path(st, last) {
      forall i: nat | i < |s|
        ensures Link(s, i, Front(t, last))
      {
        assert Link(st, i, last);
      }
      forall i: nat | i < |t|
        ensures Link(t, i, last)
      {
        assert Link(st, |s| + i, last);
      }
    }
    if Path(s, Front(t, last)) && Path(t, last) {
      forall i: nat | i < |st|
        ensures Link(st, i, last)
      {
        if i < |s| {
          assert Link(s, i, Front(t, last));
        } else {
          assert Link(t, i - |s|, last);
        }
      }
    }
  }

  lemma NoDupPermuted(s: seq<ListHead>, t: seq<ListHead>)
    requires NoDup(s) && multiset(s) == multiset(t)
    ensures NoDup(t)
  {
    forall i, j | 0 <= i < j < |t|
      ensures t[i] != t[j]
    {
      if t[i] == t[j] {
        TwiceCounted(t, i, j);
        OnceCounted(s, t[i]);
      }
    }
  }

  lemma {:induction false} OnceCounted<T>(s: seq<T>, x: T)
    requires NoDup(s)
    ensures multiset(s)[x] <= 1
  {
    if s != [] {
      OnceCounted(s[1..], x);
      assert s == [s[0]] + s[1..];
      assert s[0] !in s[1..];
      assert x in multiset(s[1..]) <==> x in s[1..];
    }
  }

  lemma TwiceCounted<T>(s: seq<T>, i: nat, j: nat)
    requires i < j < |s| && s[i] == s[j]
    ensures multiset(s)[s[i]] >= 2
  {
    assert s == s[..j] + s[j..];
    assert s[i] in s[..j] && s[i] in s[j..];
    assert s[i] in multiset(s[..j]) && s[i] in multiset(s[j..]);
  }

  // ----- Finding -----

  // The item looked for: by index, or by data when the index is negative.
  predicate Matches(it: Item, idx: int16, data: bv16)
  {
    if idx >= 0 then it.idx == idx else it.data16 & 0xff == data
  }

  // The place of the first match, or the length.
  ghost function FindAt(s: seq<ListHead>, dt: map<ListHead, Item>, idx: int16, data: bv16): (k: nat)
    ensures k <= |s| && (k < |s| ==> s[k] in dt && Matches(dt[s[k]], idx, data))
    ensures forall i | 0 <= i < k :: s[i] in dt ==> !Matches(dt[s[i]], idx, data)
  {
    if s == [] || (s[0] in dt && Matches(dt[s[0]], idx, data)) then 0 else 1 + FindAt(s[1..], dt, idx, data)
  }

  ghost predicate NoneBefore(s: seq<ListHead>, dt: map<ListHead, Item>, idx: int16, data: bv16, k: nat)
    requires k <= |s|
  {
    forall i | 0 <= i < k :: s[i] in dt && !Matches(dt[s[i]], idx, data)
  }

  lemma NoneAt(s: seq<ListHead>, idx: int16, data: bv16, k: nat, r: ListHead)
    requires k < |s| && r == Front(s[k..], null) && NoneBefore(s, Data(Cells(s)), idx, data, k)
    requires if idx >= 0 then r.info.idx != idx else r.info.data16 & 0xff != data
    ensures NoneBefore(s, Data(Cells(s)), idx, data, k + 1) && s[k..][1..] == s[k + 1..]
  {
    assert s[k] in Cells(s);
  }

  lemma FirstMatch(s: seq<ListHead>, idx: int16, data: bv16, k: nat, r: ListHead?)
    requires k <= |s| && r == Front(s[k..], null) && NoneBefore(s, Data(Cells(s)), idx, data, k)
    requires r != null ==> if idx >= 0 then r.info.idx == idx else r.info.data16 & 0xff == data
    ensures FindAt(s, Data(Cells(s)), idx, data) == k
  {
    var dt := Data(Cells(s));
    assert k < |s| ==> s[k] in Cells(s) && Matches(dt[s[k]], idx, data);
    hide Data, Matches;
    var f := FindAt(s, dt, idx, data);
    assert f < |s| ==> s[f] in Cells(s);
  }

  method Find(head: ListHead?, idx: int16, data: bv16, ghost s: seq<ListHead>) returns (r: ListHead?)
    requires IsList(head, s)
    ensures r == Front(s[FindAt(s, old(Data(Cells(s))), idx, data)..], null)
  {
    hide Path, NoDup, FindAt, Data, Cells, NoneBefore;
    r := head;
    ghost var dt := Data(Cells(s));
    ghost var k := 0;
    assert s[0..] == s;
    assert forall x | x in Infos(Cells(s)) :: x.idx == x.idx;
    assert NoneBefore(s, dt, idx, data, 0) by { NoneYet(s, dt, idx, data); }
    if idx >= 0 {
      while r != null && r.info.idx != idx
        invariant k <= |s| && r == Front(s[k..], null) && Path(s[k..], null)
        invariant dt == Data(Cells(s)) && NoneBefore(s, dt, idx, data, k)
        decreases |s| - k
      {
        PathTail(s[k..], null);
        NoneAt(s, idx, data, k, r);
        r := r.next;
        k := k + 1;
      }
    } else {
      while r != null && r.info.data16 & 0xff != data
        invariant k <= |s| && r == Front(s[k..], null) && Path(s[k..], null)
        invariant dt == Data(Cells(s)) && NoneBefore(s, dt, idx, data, k)
        decreases |s| - k
      {
        PathTail(s[k..], null);
        NoneAt(s, idx, data, k, r);
        r := r.next;
        k := k + 1;
      }
    }
    FirstMatch(s, idx, data, k, r);
  }

  lemma NoneYet(s: seq<ListHead>, dt: map<ListHead, Item>, idx: int16, data: bv16)
    ensures NoneBefore(s, dt, idx, data, 0)
  {
  }

  // ----- Reversing -----

  function Reversed<T>(s: seq<T>): (r: seq<T>)
    ensures |r| == |s| && forall i | 0 <= i < |r| :: r[i] == s[|s| - 1 - i]
  {
    if s == [] then [] else Reversed(s[1..]) + [s[0]]
  }

  lemma {:induction false} ReversedPermutes<T>(s: seq<T>)
    ensures multiset(Reversed(s)) == multiset(s)
  {
    if s != [] {
      ReversedPermutes(s[1..]);
      assert s == [s[0]] + s[1..];
    }
  }

  lemma ReversedTwice<T>(s: seq<T>)
    ensures Reversed(Reversed(s)) == s
  {
    assert |Reversed(Reversed(s))| == |s|;
  }

  lemma ReversedPush<T>(s: seq<T>, k: nat)
    requires k < |s|
    ensures Reversed(s[..k + 1]) == [s[k]] + Reversed(s[..k])
  {
    var t := s[..k + 1];
    assert |Reversed(t)| == k + 1;
  }

  method Reverse(head: ListHead?, ghost s: seq<ListHead>) returns (r: ListHead?)
    requires IsList(head, s)
    modifies s`next
    ensures IsList(r, Reversed(s))
  {
    var list := head;
    r := null;
    ghost var k := 0;
    assert s[..0] == [] && s[0..] == s;
    while list != null
      invariant k <= |s|
      invariant list == Front(s[k..], null) && Path(s[k..], null)
      invariant r == Front(Reversed(s[..k]), null) && Path(Reversed(s[..k]), null)
      decreases |s| - k
    {
      ghost var rest := s[k..];
      PathTail(rest, null);
      assert s[k + 1..] == rest[1..];
      ghost var done := Reversed(s[..k]);
      ReversedPush(s, k);
      var tmp := list.next;
      list.next := r;
      assert Path(done, null);
      assert Path([s[k]], r) by {
        assert Link([s[k]], 0, r);
      }
      PathSplit([s[k]], done, null);
      r := list;
      list := tmp;
      k := k + 1;
    }
    assert s[..k] == s;
  }
}
