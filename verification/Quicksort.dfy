/**
 The quicksort benchmark: an iterative quicksort with an explicit stack of fixed size,
 median-of-three partitioning with unguarded scans, and insertion sort for short ranges.
 */
module Quicksort {
  import opened Basics

  const INSERTION_THRESHOLD := 10
  const NSTACK := 50

  // The elements lo, ..., hi - 1, still to be sorted among themselves.
  datatype Range = Range(lo: nat, hi: nat) {
    predicate Has(p: int) { lo <= p < hi }

    function Size(): int { hi - lo }
  }

  // ----- What is sorted while ranges are pending -----

  ghost predicate Together(ranges: seq<Range>, p: int, q: int)
  {
    exists k | 0 <= k < |ranges| :: ranges[k].Has(p) && ranges[k].Has(q)
  }

  // Any two elements that are not in a common pending range are in order.
  ghost predicate OrderedOutside(s: seq<int>, n: nat, ranges: seq<Range>)
    requires n <= |s|
  {
    forall p, q | 0 <= p < q < n :: Together(ranges, p, q) || s[p] <= s[q]
  }

  ghost predicate Disjoint(ranges: seq<Range>)
  {
    forall i, j, p | 0 <= i < j < |ranges| && ranges[i].Has(p) :: !ranges[j].Has(p)
  }

  ghost predicate Within(ranges: seq<Range>, n: nat)
  {
    forall k | 0 <= k < |ranges| :: ranges[k].lo <= ranges[k].hi <= n
  }

  ghost predicate Pending(s: seq<int>, n: nat, ranges: seq<Range>)
  {
    n <= |s| && Within(ranges, n) && Disjoint(ranges) && OrderedOutside(s, n, ranges)
  }

  ghost predicate Sorted(s: seq<int>, lo: nat, hi: nat)
    requires hi <= |s|
  {
    forall p, q | lo <= p < q < hi :: s[p] <= s[q]
  }

  // s' is s with the elements lo, ..., hi - 1 rearranged.
  ghost predicate Rearranged(s: seq<int>, s': seq<int>, lo: nat, hi: nat)
  {
    && |s| == |s'| && lo <= hi <= |s|
    && multiset(s') == multiset(s)
    && forall k | 0 <= k < |s| && !(lo <= k < hi) :: s'[k] == s[k]
  }

  lemma RearrangedTrans(s: seq<int>, s': seq<int>, s'': seq<int>, lo: nat, hi: nat)
    requires Rearranged(s, s', lo, hi) && Rearranged(s', s'', lo, hi)
    ensures Rearranged(s, s'', lo, hi)
  {
  }

  lemma MiddlePermuted(a: seq<int>, b: seq<int>, b': seq<int>, c: seq<int>)
    requires multiset(a + b + c) == multiset(a + b' + c)
    ensures multiset(b) == multiset(b')
  {
    assert multiset(a + b + c) == multiset(a) + multiset(b) + multiset(c);
    assert multiset(a + b' + c) == multiset(a) + multiset(b') + multiset(c);
    assert multiset(b) == multiset(a + b + c) - multiset(a) - multiset(c);
    assert multiset(b') == multiset(a + b' + c) - multiset(a) - multiset(c);
  }

  // Every element of the rearranged part was there before.
  lemma RearrangedFrom(s: seq<int>, s': seq<int>, lo: nat, hi: nat, p: nat) returns (k: nat)
    requires Rearranged(s, s', lo, hi) && lo <= p < hi
    ensures lo <= k < hi && s[k] == s'[p]
  {
    assert s == s[..lo] + s[lo..hi] + s[hi..];
    assert s' == s[..lo] + s'[lo..hi] + s[hi..];
    MiddlePermuted(s[..lo], s[lo..hi], s'[lo..hi], s[hi..]);
    assert s'[p] == s'[lo..hi][p - lo];
    assert s'[p] in multiset(s[lo..hi]);
    var m :| 0 <= m < hi - lo && s[lo..hi][m] == s'[p];
    k := lo + m;
  }

  // Rearranging a pending range does no harm.
  lemma PendingRearranged(s: seq<int>, s': seq<int>, n: nat, ranges: seq<Range>, c: nat)
    requires c < |ranges| && Pending(s, n, ranges)
    requires Rearranged(s, s', ranges[c].lo, ranges[c].hi)
    ensures Pending(s', n, ranges)
  {
    var r := ranges[c];
    forall p, q | 0 <= p < q < n && !Together(ranges, p, q)
      ensures s'[p] <= s'[q]
    {
      var p', q' := p, q;
      if r.Has(p) {
        p' := RearrangedFrom(s, s', r.lo, r.hi, p);
      }
      if r.Has(q) {
        q' := RearrangedFrom(s, s', r.lo, r.hi, q);
      }
      assert s'[p] == s[p'] && s'[q] == s[q'];
      assert !(r.Has(p) && r.Has(q));
      NotTogether(ranges, c, p, q, p', q');
    }
  }

  lemma NotTogether(ranges: seq<Range>, c: nat, p: nat, q: nat, p': nat, q': nat)
    requires c < |ranges| && Disjoint(ranges) && !Together(ranges, p, q)
    requires p == p' || (ranges[c].Has(p) && ranges[c].Has(p'))
    requires q == q' || (ranges[c].Has(q) && ranges[c].Has(q'))
    ensures !Together(ranges, p', q')
  {
  }

  // A sorted range is pending no longer.
  lemma PendingDone(s: seq<int>, n: nat, rest: seq<Range>, r: Range)
    requires Pending(s, n, rest + [r]) && r.hi <= n <= |s| && Sorted(s, r.lo, r.hi)
    ensures Pending(s, n, rest)
  {
    var ranges := rest + [r];
    assert ranges[|rest|] == r;
    forall i, j, p | 0 <= i < j < |rest| && rest[i].Has(p)
      ensures !rest[j].Has(p)
    {
      assert ranges[i].Has(p) && ranges[j] == rest[j];
    }
    forall k | 0 <= k < |rest|
      ensures rest[k].lo <= rest[k].hi <= n
    {
      assert ranges[k] == rest[k];
    }
    forall p, q | 0 <= p < q < n && !Together(rest, p, q)
      ensures s[p] <= s[q]
    {
      if !(r.Has(p) && r.Has(q)) {
        assert !Together(ranges, p, q);
      }
    }
  }

  // Everything in r that is not in u or not in v is already in place.
  ghost predicate Splits(s: seq<int>, r: Range, u: Range, v: Range)
    requires r.hi <= |s|
  {
    forall p, q | r.lo <= p < q < r.hi :: (u.Has(p) && u.Has(q)) || (v.Has(p) && v.Has(q)) || s[p] <= s[q]
  }

  // A partitioned range is replaced by its two parts.
  lemma PendingSplit(s: seq<int>, n: nat, rest: seq<Range>, r: Range, u: Range, v: Range)
    requires Pending(s, n, rest + [r]) && r.hi <= n <= |s|
    requires r.lo <= u.lo <= u.hi <= r.hi && r.lo <= v.lo <= v.hi <= r.hi
    requires u.hi <= v.lo || v.hi <= u.lo
    requires Splits(s, r, u, v)
    ensures Pending(s, n, rest + [u, v])
  {
    var ranges, ranges' := rest + [r], rest + [u, v];
    var d := |rest|;
    assert ranges[d] == r && ranges'[d] == u && ranges'[d + 1] == v;
    forall k | 0 <= k < |ranges'|
      ensures ranges'[k].lo <= ranges'[k].hi <= n
    {
      assert k < d ==> ranges'[k] == ranges[k];
    }
    forall i, j, p | 0 <= i < j < |ranges'| && ranges'[i].Has(p)
      ensures !ranges'[j].Has(p)
    {
      if i < d {
        assert ranges[i].Has(p);
        assert !ranges[d].Has(p);
        assert j < d ==> ranges'[j] == ranges[j];
      }
    }
    forall p, q | 0 <= p < q < n && !Together(ranges', p, q)
      ensures s[p] <= s[q]
    {
      if r.Has(p) && r.Has(q) {
        assert !(ranges'[d].Has(p) && ranges'[d].Has(q));
        assert !(ranges'[d + 1].Has(p) && ranges'[d + 1].Has(q));
      } else {
        forall k | 0 <= k < |ranges|
          ensures !(ranges[k].Has(p) && ranges[k].Has(q))
        {
          assert k < d ==> ranges'[k] == ranges[k];
        }
        assert !Together(ranges, p, q);
      }
    }
  }

  // ----- The size of the stack -----

  // A range at depth k of the stack is at most a 2^k-th of the whole.
  ghost predicate Fits(ranges: seq<Range>, n: nat)
  {
    forall k | 0 <= k < |ranges| :: (ranges[k].Size() + 1) * Pow2(k) <= n + 1
  }

  // The larger part is pushed and the smaller one is worked on.
  lemma FitsSplit(rest: seq<Range>, r: Range, u: Range, v: Range, n: nat)
    requires Fits(rest + [r], n)
    requires 0 <= v.Size() <= u.Size() && u.Size() + v.Size() < r.Size()
    ensures Fits(rest + [u, v], n)
  {
    var ranges, ranges' := rest + [r], rest + [u, v];
    var d := |rest|;
    assert ranges[d] == r;
    forall k | 0 <= k < |ranges'|
      ensures (ranges'[k].Size() + 1) * Pow2(k) <= n + 1
    {
      if k < d {
        assert ranges'[k] == ranges[k];
      } else if k == d {
        MulMono(u.Size() + 1, r.Size() + 1, Pow2(d));
      } else {
        MulMono(2 * (v.Size() + 1), r.Size() + 1, Pow2(d));
        assert (v.Size() + 1) * Pow2(d + 1) == 2 * (v.Size() + 1) * Pow2(d);
      }
    }
  }

  lemma MulMono(x: int, y: int, p: nat)
    requires x <= y
    ensures x * p <= y * p
  {
  }

  // A range that is still too long for insertion sort lies at depth 23 at most.
  lemma DepthBound(rest: seq<Range>, r: Range, n: nat)
    requires Fits(rest + [r], n) && r.Size() > INSERTION_THRESHOLD
    requires n + 1 < 12 * 0x100_0000
    ensures 2 * (|rest| + 1) < NSTACK
  {
    var d := |rest|;
    assert (rest + [r])[d] == r;
    MulMono(12, r.Size() + 1, Pow2(d));
    Pow2Words();
    if d >= 24 {
      Pow2Grows(24, d);
      assert false;
    }
  }

  // ----- Where the stack does not suffice -----

  // Strictly increasing elements.
  ghost predicate Rising(s: seq<int>, lo: nat, hi: nat)
  {
    hi <= |s| && forall p, q | lo <= p < q < hi :: s[p] < s[q]
  }

  function Middle(lo: nat, hi: nat): int { (lo + 1 + hi) / 2 - 1 }

  // Increasing elements with the middle one swapped to the second place.
  ghost function Opened(s: seq<int>, lo: nat, hi: nat): seq<int>
    requires lo + INSERTION_THRESHOLD < hi <= |s|
  {
    s[Middle(lo, hi) := s[lo + 1]][lo + 1 := s[Middle(lo, hi)]]
  }

  // The scans of an opened range stop on both sides of the middle, and putting the pivot back
  // closes the range again.
  lemma OpenedScan(s: seq<int>, t: seq<int>, lo: nat, hi: nat, i: nat, j: nat)
    requires lo + INSERTION_THRESHOLD < hi && Rising(s, lo, hi) && t == Opened(s, lo, hi)
    requires lo + 2 < i <= hi && 0 < j < hi && t[i - 1] >= t[lo + 1] && t[j - 1] <= t[lo + 1]
    requires forall k | lo + 2 <= k < i - 1 :: t[k] < t[lo + 1]
    requires forall k | j <= k < hi - 1 :: t[k] > t[lo + 1]
    ensures j == Middle(lo, hi) + 1 && i == j + 1
    ensures t[lo + 1 := t[j - 1]][j - 1 := t[lo + 1]] == s
  {
    var m := Middle(lo, hi);
    assert t[m + 1] > t[lo + 1];
    assert t[m] < t[lo + 1];
    assert m < i - 1;
    assert j - 1 <= m;
    assert t[hi - 1] > t[lo + 1];
  }

  // In an increasing array the range at hand has half the size with every push, and the array
  // does not change.
  ghost predicate Deep(s0: seq<int>, s: seq<int>, n: nat, d: nat, l: nat, ir: nat)
  {
    Rising(s0, 0, n) && n + 1 >= 12 * 0x100_0000 ==>
      s == s0 && d <= 24 && ir - l + 2 >= 12 * Pow2(24 - d)
  }

  lemma DeepStart(s: seq<int>, n: nat)
    ensures Deep(s, s, n, 0, 1, n)
  {
    Pow2Words();
  }

  lemma DeepShort(s0: seq<int>, s: seq<int>, n: nat, d: nat, l: nat, ir: nat)
    requires Deep(s0, s, n, d, l, ir) && ir - l < INSERTION_THRESHOLD
    ensures !(Rising(s0, 0, n) && n + 1 >= 12 * 0x100_0000)
    ensures forall s', d', l', ir' :: Deep(s0, s', n, d', l', ir')
  {
  }

  lemma DeepNext(s0: seq<int>, s: seq<int>, s': seq<int>, n: nat, d: nat, l: nat, ir: nat, l': nat, ir': nat)
    requires Deep(s0, s, n, d, l, ir) && 1 <= l <= ir <= n && 2 * (d + 1) < NSTACK
    requires Rising(s, l - 1, ir) ==> s' == s && ir' - l' + 2 == (ir - l + 2) / 2
    ensures Deep(s0, s', n, d + 1, l', ir')
  {
    if Rising(s0, 0, n) && n + 1 >= 12 * 0x100_0000 {
      assert Rising(s, l - 1, ir);
      assert Pow2(24 - d) == 2 * Pow2(24 - d - 1);
    }
  }

  // ----- Progress -----

  ghost function Weight(ranges: seq<Range>): nat
  {
    if ranges == [] then 0 else RangeWeight(ranges[|ranges| - 1]) + Weight(ranges[..|ranges| - 1])
  }

  ghost function RangeWeight(r: Range): nat { if r.lo <= r.hi then 2 * r.Size() + 1 else 1 }

  lemma WeightSnoc(rest: seq<Range>, r: Range)
    ensures Weight(rest + [r]) == Weight(rest) + RangeWeight(r)
  {
    assert (rest + [r])[..|rest|] == rest;
  }

  lemma WeightSplit(rest: seq<Range>, r: Range, u: Range, v: Range)
    requires 0 <= u.Size() && 0 <= v.Size() && u.Size() + v.Size() < r.Size()
    ensures Weight(rest + [u, v]) < Weight(rest + [r])
  {
    WeightSnoc(rest, r);
    WeightSnoc(rest, u);
    WeightSnoc(rest + [u], v);
    assert rest + [u] + [v] == rest + [u, v];
  }

  // ----- Insertion sort -----

  // t is s with the elements from j to i - 1 one place up; place j is open for the element
  // that was at i.
  ghost predicate Shifted(s: seq<int>, t: seq<int>, j: int, i: int)
  {
    && 0 <= j <= i < |s| == |t|
    && (forall k {:trigger t[k]} | 0 <= k < |s| && k != j :: t[k] == if j < k <= i then s[k - 1] else s[k])
    && multiset(t[j := s[i]]) == multiset(s)
  }

  lemma ShiftedStart(s: seq<int>, i: nat)
    requires i < |s|
    ensures Shifted(s, s, i, i)
  {
    assert s[i := s[i]] == s;
  }

  lemma ShiftedBelow(s: seq<int>, t: seq<int>, j: int, i: int)
    requires Shifted(s, t, j, i) && j > 0
    ensures j <= i < |s| == |t| && t[j - 1] == s[j - 1]
  {
  }

  lemma ShiftedStep(s: seq<int>, t: seq<int>, t': seq<int>, j: int, i: int)
    requires Shifted(s, t, j, i) && j > 0 && t' == t[j := t[j - 1]]
    ensures Shifted(s, t', j - 1, i)
  {
    var u := t[j := s[i]];
    assert t'[j - 1 := s[i]] == u[j := u[j - 1]][j - 1 := u[j]];
  }

  lemma ShiftedSorted(s: seq<int>, t: seq<int>, t': seq<int>, lo: nat, j: int, i: int)
    requires Shifted(s, t, j, i) && lo <= j && t' == t[j := s[i]] && Sorted(s, lo, i)
    requires (j > lo ==> s[j - 1] <= s[i]) && (j < i ==> s[i] <= s[j])
    ensures Sorted(t', lo, i + 1) && Rearranged(s, t', lo, i + 1)
  {
    forall p, q | lo <= p < q < i + 1
      ensures t'[p] <= t'[q]
    {
      assert p < j ==> t'[p] == s[p] <= s[i];
      assert q > j ==> t'[q] == s[q - 1] >= s[i];
      assert q < j ==> t'[q] == s[q];
      assert p > j ==> t'[p] == s[p - 1];
    }
  }

  method SetAt(arr: array<int>, j: nat, v: int)
    requires j < arr.Length
    modifies arr
    ensures arr[..] == old(arr[..])[j := v]
  {
    ghost var s := arr[..];
    arr[j] := v;
    assert arr[..] == s[j := v];
  }

  // The element at i is moved down to its place among the sorted ones before it.
  method Insert(arr: array<int>, lo: nat, i: nat)
    requires lo < i < arr.Length && Sorted(arr[..], lo, i)
    modifies arr
    ensures Sorted(arr[..], lo, i + 1) && Rearranged(old(arr[..]), arr[..], lo, i + 1)
  {
    hide Shifted, Sorted, Rearranged;
    ghost var s := arr[..];
    var value := arr[i];
    var j := i;
    ShiftedStart(s, i);
    while value < arr[j - 1]
      invariant lo < j <= i
      invariant Shifted(s, arr[..], j, i)
      invariant j < i ==> value < s[j]
      decreases j
    {
      ghost var t := arr[..];
      ShiftedBelow(s, t, j, i);
      assert arr[j - 1] == t[j - 1];
      SetAt(arr, j, arr[j - 1]);
      ShiftedStep(s, t, arr[..], j, i);
      j := j - 1;
      if j == lo {
        break;
      }
    }
    ghost var t := arr[..];
    if j > lo {
      ShiftedBelow(s, t, j, i);
      assert arr[j - 1] == t[j - 1];
    }
    SetAt(arr, j, value);
    ShiftedSorted(s, t, arr[..], lo, j, i);
  }

  method InsertionSort(arr: array<int>, lo: nat, n: nat)
    requires lo + n <= arr.Length
    modifies arr
    ensures Sorted(arr[..], lo, lo + n) && Rearranged(old(arr[..]), arr[..], lo, lo + n)
  {
    var i := lo + 1;
    while i < lo + n
      invariant lo < i && (i <= lo + n || i == lo + 1)
      invariant i <= arr.Length ==> Sorted(arr[..], lo, i)
      invariant Rearranged(old(arr[..]), arr[..], lo, lo + n)
    {
      ghost var s := arr[..];
      Insert(arr, lo, i);
      RearrangedTrans(old(arr[..]), s, arr[..], lo, lo + n);
      i := i + 1;
    }
  }

  // ----- Partitioning -----

  method Swap(arr: array<int>, x: nat, y: nat, ghost lo: nat, ghost hi: nat)
    requires lo <= x < hi <= arr.Length && lo <= y < hi
    modifies arr
    ensures arr[..] == old(arr[..])[x := old(arr[y])][y := old(arr[x])]
    ensures Rearranged(old(arr[..]), arr[..], lo, hi)
  {
    ghost var s := arr[..];
    arr[x], arr[y] := arr[y], arr[x];
    assert arr[..] == s[x := s[y]][y := s[x]];
  }

  method SwapIfGreater(arr: array<int>, x: nat, y: nat, ghost lo: nat, ghost hi: nat)
    requires lo <= x < hi <= arr.Length && lo <= y < hi && x != y
    modifies arr
    ensures arr[x] <= arr[y]
    ensures arr[..] == old(arr[..]) || arr[..] == old(arr[..])[x := old(arr[y])][y := old(arr[x])]
    ensures old(arr[x]) <= old(arr[y]) ==> arr[..] == old(arr[..])
    ensures arr[x] == old(arr[x]) || (arr[x] == old(arr[y]) && arr[y] == old(arr[x]) && arr[y] >= old(arr[y]))
    ensures Rearranged(old(arr[..]), arr[..], lo, hi)
  {
    if arr[x] > arr[y] {
      Swap(arr, x, y, lo, hi);
    }
  }

  // The scan up runs without a bound; an element not below the pivot stops it.
  method ScanUp(arr: array<int>, i0: nat, a: int, ghost stop: nat) returns (i: nat)
    requires i0 <= stop < arr.Length && arr[stop] >= a
    ensures i0 < i <= stop + 1 && arr[i - 1] >= a
    ensures forall k | i0 <= k < i - 1 :: arr[k] < a
  {
    i := i0;
    while arr[i] < a
      invariant i0 <= i <= stop
      invariant forall k | i0 <= k < i :: arr[k] < a
      decreases stop - i
    {
      i := i + 1;
    }
    i := i + 1;
  }

  method ScanDown(arr: array<int>, j0: nat, a: int, ghost stop: nat) returns (j: nat)
    requires stop + 2 <= j0 <= arr.Length && arr[stop] <= a
    ensures stop + 1 <= j < j0 && arr[j - 1] <= a
    ensures forall k | j <= k < j0 - 1 :: arr[k] > a
  {
    j := j0;
    while arr[j - 2] > a
      invariant stop + 2 <= j <= j0
      invariant forall k | j - 1 <= k < j0 - 1 :: arr[k] > a
      decreases j
    {
      j := j - 1;
    }
    j := j - 1;
  }

  ghost predicate AtMost(s: seq<int>, lo: int, hi: int, a: int)
  {
    forall k | lo <= k < hi && 0 <= k < |s| :: s[k] <= a
  }

  ghost predicate AtLeast(s: seq<int>, lo: int, hi: int, a: int)
  {
    forall k | lo <= k < hi && 0 <= k < |s| :: s[k] >= a
  }

  // Between two rounds of scanning: everything before i is at most the pivot, everything
  // from j - 1 on is at least the pivot.
  ghost predicate Cut(s: seq<int>, lo: nat, hi: nat, i: nat, j: nat, a: int)
  {
    && ((i == lo + 2 && j == hi > i) || lo + 3 <= i <= j < hi) && hi <= |s|
    && s[lo + 1] == a && AtMost(s, lo, i, a) && AtLeast(s, j - 1, hi, a)
  }

  lemma CutStart(s: seq<int>, lo: nat, hi: nat)
    requires lo + INSERTION_THRESHOLD < hi <= |s| && s[lo] <= s[lo + 1] <= s[hi - 1]
    ensures Cut(s, lo, hi, lo + 2, hi, s[lo + 1])
  {
  }

  // Brings a[lo] <= a[lo + 1] <= a[hi - 1] about.
  method OrderThree(arr: array<int>, lo: nat, hi: nat)
    requires lo + INSERTION_THRESHOLD < hi <= arr.Length
    modifies arr
    ensures arr[lo] <= arr[lo + 1] <= arr[hi - 1]
    ensures Rearranged(old(arr[..]), arr[..], lo, hi)
    ensures old(arr[lo] <= arr[lo + 1] <= arr[hi - 1]) ==> arr[..] == old(arr[..])
  {
    hide Rearranged;
    ghost var s1 := arr[..];
    SwapIfGreater(arr, lo, hi - 1, lo, hi);
    ghost var s2 := arr[..];
    SwapIfGreater(arr, lo + 1, hi - 1, lo, hi);
    ghost var s3 := arr[..];
    RearrangedTrans(s1, s2, s3, lo, hi);
    assert s3[lo] == s2[lo];
    SwapIfGreater(arr, lo, lo + 1, lo, hi);
    RearrangedTrans(s1, s3, arr[..], lo, hi);
  }

  // The middle element is made the second and the three are put in order; the pivot and two
  // sentinels are then in place.
  method MedianOfThree(arr: array<int>, lo: nat, hi: nat)
    requires lo + INSERTION_THRESHOLD < hi <= arr.Length
    modifies arr
    ensures Cut(arr[..], lo, hi, lo + 2, hi, arr[lo + 1])
    ensures Rearranged(old(arr[..]), arr[..], lo, hi)
    ensures Rising(old(arr[..]), lo, hi) ==> arr[..] == Opened(old(arr[..]), lo, hi)
  {
    ghost var s := arr[..];
    OpenedThree(s, lo, hi);
    hide Rearranged, Cut, Rising, Opened;
    Swap(arr, (lo + 1 + hi) / 2 - 1, lo + 1, lo, hi);
    ghost var s1 := arr[..];
    assert s1 == Opened(s, lo, hi);
    assert s1[lo] == arr[lo] && s1[lo + 1] == arr[lo + 1] && s1[hi - 1] == arr[hi - 1];
    OrderThree(arr, lo, hi);
    RearrangedTrans(s, s1, arr[..], lo, hi);
    CutStart(arr[..], lo, hi);
  }

  lemma OpenedThree(s: seq<int>, lo: nat, hi: nat)
    requires lo + INSERTION_THRESHOLD < hi <= |s|
    ensures Opened(s, lo, hi) == s[(lo + 1 + hi) / 2 - 1 := s[lo + 1]][lo + 1 := s[(lo + 1 + hi) / 2 - 1]]
    ensures Rising(s, lo, hi) ==> var t := Opened(s, lo, hi); t[lo] <= t[lo + 1] <= t[hi - 1]
  {
  }

  // After scanning both ways, the elements at i - 1 and j - 1 are on the wrong sides.
  ghost predicate Scanned(s: seq<int>, lo: nat, hi: nat, i: nat, j: nat, a: int)
  {
    && lo + 3 <= i <= hi && lo + 2 <= j < hi <= |s|
    && s[lo + 1] == a && AtMost(s, lo, i - 1, a) && AtLeast(s, j, hi, a)
    && s[i - 1] >= a && s[j - 1] <= a
  }

  // Where the scans stop at the latest.
  function StopUp(i: nat, j: nat): int { if j - 1 < i then i else j - 1 }

  function StopDown(i: nat, j: nat): int { if i - 1 < j - 2 then i - 1 else j - 2 }

  lemma Sentinels(s: seq<int>, lo: nat, hi: nat, i: nat, j: nat, a: int)
    requires Cut(s, lo, hi, i, j, a)
    ensures i <= StopUp(i, j) < hi && s[StopUp(i, j)] >= a
    ensures lo + 1 <= StopDown(i, j) <= j - 2 && s[StopDown(i, j)] <= a
  {
  }

  lemma CutScanned(s: seq<int>, lo: nat, hi: nat, i0: nat, j0: nat, i: nat, j: nat, a: int)
    requires Cut(s, lo, hi, i0, j0, a)
    requires i0 < i <= StopUp(i0, j0) + 1 && i <= hi && s[i - 1] >= a
    requires forall k | i0 <= k < i - 1 :: s[k] < a
    requires StopDown(i0, j0) + 1 <= j < j0 && j > 0 && s[j - 1] <= a
    requires forall k | j <= k < j0 - 1 :: s[k] > a
    ensures Scanned(s, lo, hi, i, j, a)
  {
  }

  lemma ScannedSwapped(s: seq<int>, lo: nat, hi: nat, i: nat, j: nat, a: int)
    requires Scanned(s, lo, hi, i, j, a) && i <= j
    ensures Cut(s[i - 1 := s[j - 1]][j - 1 := s[i - 1]], lo, hi, i, j, a)
  {
  }

  // The pivot separates the parts; between them stand copies of the pivot.
  lemma Separated(s: seq<int>, lo: nat, hi: nat, i: nat, j: nat, a: int)
    requires Scanned(s, lo, hi, i, j, a) && j < i
    ensures Splits(s[lo + 1 := s[j - 1]][j - 1 := s[lo + 1]], Range(lo, hi), Range(lo, j - 1), Range(i - 1, hi))
  {
    var s' := s[lo + 1 := s[j - 1]][j - 1 := s[lo + 1]];
    var u, v := Range(lo, j - 1), Range(i - 1, hi);
    forall p, q | lo <= p < q < hi
      ensures (u.Has(p) && u.Has(q)) || (v.Has(p) && v.Has(q)) || s'[p] <= s'[q]
    {
      assert p < i - 1 ==> s'[p] <= a;
      assert q >= j - 1 ==> s'[q] >= a;
    }
  }

  // The pivot is put between the parts.
  method PlacePivot(arr: array<int>, lo: nat, hi: nat, i: nat, j: nat, a: int)
    requires Scanned(arr[..], lo, hi, i, j, a) && j < i
    modifies arr
    ensures Rearranged(old(arr[..]), arr[..], lo, hi)
    ensures Splits(arr[..], Range(lo, hi), Range(lo, j - 1), Range(i - 1, hi))
    ensures arr[..] == old(arr[..])[lo + 1 := old(arr[j - 1])][j - 1 := a]
  {
    ghost var s := arr[..];
    PivotPlaced(s, lo, hi, i, j, a);
    hide Rearranged, Splits, Scanned;
    SetAt(arr, lo + 1, arr[j - 1]);
    SetAt(arr, j - 1, a);
  }

  lemma PivotPlaced(s: seq<int>, lo: nat, hi: nat, i: nat, j: nat, a: int)
    requires Scanned(s, lo, hi, i, j, a) && j < i
    ensures lo + 2 <= j < hi <= |s| && s[lo + 1] == a
    ensures var s' := s[lo + 1 := s[j - 1]][j - 1 := a];
            Rearranged(s, s', lo, hi) && Splits(s', Range(lo, hi), Range(lo, j - 1), Range(i - 1, hi))
  {
    ScannedPivot(s, lo, hi, i, j, a);
    Separated(s, lo, hi, i, j, a);
    hide Rearranged, Splits, Scanned;
    SwapRearranges(s, lo + 1, j - 1, lo, hi);
  }

  // Both scans of a round.
  method Scan(arr: array<int>, lo: nat, hi: nat, i0: nat, j0: nat, a: int) returns (i: nat, j: nat)
    requires Cut(arr[..], lo, hi, i0, j0, a)
    ensures Scanned(arr[..], lo, hi, i, j, a) && i > i0 && j > 0
    ensures forall k | i0 <= k < i - 1 :: arr[k] < a
    ensures forall k | j <= k < j0 - 1 :: arr[k] > a
  {
    ghost var s := arr[..];
    Sentinels(s, lo, hi, i0, j0, a);
    hide Cut, Scanned;
    i := ScanUp(arr, i0, a, StopUp(i0, j0));
    j := ScanDown(arr, j0, a, StopDown(i0, j0));
    assert forall k | 0 <= k < arr.Length :: arr[k] == s[k];
    CutScanned(s, lo, hi, i0, j0, i, j, a);
  }

  // The state between two rounds of a partition that started with s0.
  ghost predicate Rounding(s0: seq<int>, s: seq<int>, lo: nat, hi: nat, i: nat, j: nat, a: int)
  {
    && lo + 2 <= i <= hi && j <= hi <= |s|
    && Cut(s, lo, hi, i, j, a) && Rearranged(s0, s, lo, hi) && FirstRound(s0, s, lo, hi, i, j)
  }

  lemma RoundingStarts(s0: seq<int>, s: seq<int>, lo: nat, hi: nat, a: int)
    requires lo + INSERTION_THRESHOLD < hi <= |s| && Cut(s, lo, hi, lo + 2, hi, a) && Rearranged(s0, s, lo, hi)
    requires Rising(s0, lo, hi) ==> s == Opened(s0, lo, hi)
    ensures Rounding(s0, s, lo, hi, lo + 2, hi, a)
  {
    hide Cut, Rising, Opened;
  }

  // One round: both scans, and an exchange unless they have crossed.
  method Round(arr: array<int>, lo: nat, hi: nat, i0: nat, j0: nat, a: int, ghost s0: seq<int>) returns (i: nat, j: nat)
    requires Rounding(s0, arr[..], lo, hi, i0, j0, a)
    modifies arr
    ensures i0 < i <= hi
    ensures i <= j ==> Rounding(s0, arr[..], lo, hi, i, j, a)
    ensures j < i ==> Scanned(arr[..], lo, hi, i, j, a) && Rearranged(s0, arr[..], lo, hi)
    ensures j < i ==> RoundClosed(s0, arr[..], lo, hi, i, j, a)
  {
    hide Rearranged, Cut, Scanned, FirstRound, RoundClosed;
    ghost var s := arr[..];
    i, j := Scan(arr, lo, hi, i0, j0, a);
    assert arr[..] == s;
    ScannedPivot(s, lo, hi, i, j, a);
    RoundStops(s0, s, lo, hi, i0, j0, i, j, a);
    if i <= j {
      ScannedSwapped(s, lo, hi, i, j, a);
      RoundOpen(s0, s, lo, hi, i, j, a);
      Swap(arr, i - 1, j - 1, lo, hi);
      RearrangedTrans(s0, s, arr[..], lo, hi);
    }
  }

  // The range is split in two, each part shorter, with everything between them in place.
  method Partition(arr: array<int>, lo: nat, hi: nat) returns (i: nat, j: nat)
    requires lo + INSERTION_THRESHOLD < hi <= arr.Length
    modifies arr
    ensures Rearranged(old(arr[..]), arr[..], lo, hi)
    ensures lo + 2 <= j < i <= hi
    ensures Splits(arr[..], Range(lo, hi), Range(lo, j - 1), Range(i - 1, hi))
    ensures Rising(old(arr[..]), lo, hi) ==> arr[..] == old(arr[..]) && j == Middle(lo, hi) + 1 && i == j + 1
  {
    hide Rearranged, Splits, Scanned, Rising, Middle, RoundClosed, Rounding, Cut, Opened;
    ghost var s0 := arr[..];
    MedianOfThree(arr, lo, hi);
    i, j := lo + 2, hi;
    var a := arr[lo + 1];
    RoundingStarts(s0, arr[..], lo, hi, a);
    while true
      invariant i <= hi && Rounding(s0, arr[..], lo, hi, i, j, a)
      decreases hi - i
    {
      i, j := Round(arr, lo, hi, i, j, a, s0);
      if j < i {
        break;
      }
    }
    ghost var s := arr[..];
    ScannedPivot(s, lo, hi, i, j, a);
    PlacePivot(arr, lo, hi, i, j, a);
    RearrangedTrans(s0, s, arr[..], lo, hi);
    RoundEnds(s0, s, arr[..], lo, hi, i, j, a);
  }

  // If s0 is increasing, the partition is in its first round, ...
  ghost predicate FirstRound(s0: seq<int>, s: seq<int>, lo: nat, hi: nat, i: nat, j: nat)
  {
    Rising(s0, lo, hi) ==>
      lo + INSERTION_THRESHOLD < hi <= |s0| && i == lo + 2 && j == hi && s == Opened(s0, lo, hi)
  }

  // ... and the scans of that round have crossed at the middle.
  ghost predicate RoundClosed(s0: seq<int>, s: seq<int>, lo: nat, hi: nat, i: nat, j: nat, a: int)
  {
    Rising(s0, lo, hi) ==>
      && j == Middle(lo, hi) + 1 && i == j + 1 && 1 <= j <= |s| && lo + 1 < |s|
      && s[lo + 1 := s[j - 1]][j - 1 := a] == s0
  }

  lemma RoundStops(s0: seq<int>, s: seq<int>, lo: nat, hi: nat, i0: nat, j0: nat, i: nat, j: nat, a: int)
    requires FirstRound(s0, s, lo, hi, i0, j0) && Scanned(s, lo, hi, i, j, a) && i > i0 && j0 <= |s|
    requires forall k | i0 <= k < i - 1 :: s[k] < a
    requires forall k | j <= k < j0 - 1 :: s[k] > a
    ensures RoundClosed(s0, s, lo, hi, i, j, a)
  {
    hide Opened, Middle;
    if Rising(s0, lo, hi) {
      OpenedScan(s0, s, lo, hi, i, j);
    }
  }

  lemma RoundOpen(s0: seq<int>, s: seq<int>, lo: nat, hi: nat, i: nat, j: nat, a: int)
    requires RoundClosed(s0, s, lo, hi, i, j, a) && i <= j
    ensures forall s', i', j' :: FirstRound(s0, s', lo, hi, i', j')
  {
    hide Rising, Opened, Middle;
  }

  lemma RoundEnds(s0: seq<int>, s: seq<int>, s': seq<int>, lo: nat, hi: nat, i: nat, j: nat, a: int)
    requires RoundClosed(s0, s, lo, hi, i, j, a) && 1 <= j <= |s| && lo + 1 < |s|
    requires s' == s[lo + 1 := s[j - 1]][j - 1 := a]
    ensures Rising(s0, lo, hi) ==> s' == s0 && j == Middle(lo, hi) + 1 && i == j + 1
  {
    hide Rising, Middle;
  }

  lemma ScannedPivot(s: seq<int>, lo: nat, hi: nat, i: nat, j: nat, a: int)
    requires Scanned(s, lo, hi, i, j, a)
    ensures lo + 2 <= j < hi <= |s| && i <= hi && s[lo + 1] == a
  {
  }

  lemma SwapRearranges(s: seq<int>, x: nat, y: nat, lo: nat, hi: nat)
    requires lo <= x < hi <= |s| && lo <= y < hi
    ensures Rearranged(s, s[x := s[y]][y := s[x]], lo, hi)
  {
  }

  // ----- The sort -----

  lemma RearrangedWider(s: seq<int>, s': seq<int>, lo: nat, hi: nat, n: nat)
    requires Rearranged(s, s', lo, hi) && hi <= n <= |s|
    ensures Rearranged(s, s', 0, n)
  {
  }

  lemma AllPending(s: seq<int>, n: nat)
    requires n <= |s|
    ensures Going(s, n, [], 1, n) && Rearranged(s, s, 0, n)
  {
    var ranges := [] + [Range(0, n)];
    forall p, q | 0 <= p < q < n
      ensures Together(ranges, p, q)
    {
      assert ranges[0].Has(p) && ranges[0].Has(q);
    }
  }

  // What popping a range brings back.
  lemma Popped(s: seq<int>, n: nat, rest: seq<Range>, l: nat, ir: nat)
    requires 1 <= l && Pending(s, n, rest) && Fits(rest + [Range(l - 1, ir)], n) && rest != []
    ensures var below, top := rest[..|rest| - 1], rest[|rest| - 1];
            Going(s, n, below, top.lo + 1, top.hi) && Left(below, top.lo + 1, top.hi) < Left(rest, l, ir)
  {
    hide Pow2, Weight, RangeWeight, OrderedOutside, Disjoint, Fits;
    var cur := Range(l - 1, ir);
    var below, top := rest[..|rest| - 1], rest[|rest| - 1];
    assert below + [top] == rest && top == Range(top.lo + 1 - 1, top.hi);
    FitsBelow(rest, cur, n);
    WeightSnoc(rest, cur);
    assert RangeWeight(cur) > 0 by { RangeWeightPositive(cur); }
  }

  lemma FitsBelow(rest: seq<Range>, r: Range, n: nat)
    requires Fits(rest + [r], n)
    ensures Fits(rest, n)
  {
    hide Pow2;
    forall k | 0 <= k < |rest|
      ensures (rest[k].Size() + 1) * Pow2(k) <= n + 1
    {
      assert (rest + [r])[k] == rest[k];
    }
  }

  lemma RangeWeightPositive(r: Range)
    ensures RangeWeight(r) > 0
  {
  }

  lemma NonePending(s: seq<int>, n: nat)
    requires Pending(s, n, []) && n <= |s|
    ensures Sorted(s, 0, n)
  {
    assert forall p, q :: !Together([], p, q);
  }

  // The state of the main loop on the range from l - 1 to ir with the ranges rest stacked.
  ghost predicate Going(s: seq<int>, n: nat, rest: seq<Range>, l: nat, ir: nat)
  {
    && 1 <= l <= ir + 1 <= n + 1 <= |s| + 1
    && Pending(s, n, rest + [Range(l - 1, ir)])
    && Fits(rest + [Range(l - 1, ir)], n)
  }

  ghost function Left(rest: seq<Range>, l: nat, ir: nat): nat
  {
    if l == 0 then 0 else Weight(rest + [Range(l - 1, ir)])
  }

  // The stack holds the pending ranges, two pointers each, from slot 1 on.
  ghost predicate Stacked(stack: seq<int>, stackp: nat, rest: seq<Range>)
  {
    && stackp == 2 * |rest| < |stack| == NSTACK
    && forall k | 0 <= k < |rest| :: stack[2 * k + 1] == rest[k].lo + 1 && stack[2 * k + 2] == rest[k].hi
  }

  lemma StackedTop(stack: seq<int>, stackp: nat, rest: seq<Range>)
    requires Stacked(stack, stackp, rest) && rest != []
    ensures var top := rest[|rest| - 1];
            && 2 <= stackp < |stack| && stack[stackp] == top.hi && stack[stackp - 1] == top.lo + 1
            && Stacked(stack, stackp - 2, rest[..|rest| - 1])
  {
  }

  lemma StackedPush(stack: seq<int>, stackp: nat, rest: seq<Range>, u: Range)
    requires Stacked(stack, stackp, rest) && 2 * (|rest| + 1) < NSTACK
    ensures stackp + 2 < |stack|
    ensures Stacked(stack[stackp + 2 := u.hi][stackp + 1 := u.lo + 1], stackp + 2, rest + [u])
  {
  }

  // Sorting the range at hand leaves the others pending.
  method SortShort(arr: array<int>, n: nat, l: nat, ir: nat, ghost rest: seq<Range>)
    requires Going(arr[..], n, rest, l, ir)
    modifies arr
    ensures 1 <= l && Fits(rest + [Range(l - 1, ir)], n)
    ensures Pending(arr[..], n, rest) && Rearranged(old(arr[..]), arr[..], 0, n)
  {
    ghost var s, r := arr[..], Range(l - 1, ir);
    ghost var ranges := rest + [r];
    assert ranges[|rest|] == r && r.lo <= r.hi <= n;
    hide Pending, Rearranged, Sorted, Fits;
    InsertionSort(arr, l - 1, ir - l + 1);
    PendingRearranged(s, arr[..], n, ranges, |rest|);
    PendingDone(arr[..], n, rest, r);
    RearrangedWider(s, arr[..], r.lo, r.hi, n);
  }

  // Partitioning the range at hand; u is the larger part.
  method Divide(arr: array<int>, n: nat, l: nat, ir: nat, ghost rest: seq<Range>)
    returns (i: nat, j: nat, ghost u: Range, ghost v: Range)
    requires 1 <= l && l + INSERTION_THRESHOLD <= ir && n <= arr.Length
    requires Pending(arr[..], n, rest + [Range(l - 1, ir)]) && Fits(rest + [Range(l - 1, ir)], n)
    modifies arr
    ensures l < j < i <= ir
    ensures if ir - i + 1 >= j - l then u == Range(i - 1, ir) && v == Range(l - 1, j - 1)
            else u == Range(l - 1, j - 1) && v == Range(i - 1, ir)
    ensures Pending(arr[..], n, rest + [u, v]) && Fits(rest + [u, v], n)
    ensures Weight(rest + [u, v]) < Weight(rest + [Range(l - 1, ir)])
    ensures Rearranged(old(arr[..]), arr[..], 0, n)
    ensures Rising(old(arr[..]), l - 1, ir) ==>
              arr[..] == old(arr[..]) && ir - i + 1 >= j - l && j - l + 1 == (ir - l + 2) / 2
  {
    ghost var s, r := arr[..], Range(l - 1, ir);
    ghost var ranges := rest + [r];
    assert ranges[|rest|] == r && r.hi <= n;
    hide Pending, Rearranged, Splits, Fits, Weight, Rising;
    i, j := Partition(arr, l - 1, ir);
    if ir - i + 1 >= j - l {
      u, v := Range(i - 1, ir), Range(l - 1, j - 1);
    } else {
      u, v := Range(l - 1, j - 1), Range(i - 1, ir);
    }
    SplitsEither(arr[..], r, Range(l - 1, j - 1), Range(i - 1, ir));
    PendingRearranged(s, arr[..], n, ranges, |rest|);
    PendingSplit(arr[..], n, rest, r, u, v);
    FitsSplit(rest, r, u, v, n);
    WeightSplit(rest, r, u, v);
    RearrangedWider(s, arr[..], r.lo, r.hi, n);
  }

  lemma SplitsEither(s: seq<int>, r: Range, u: Range, v: Range)
    requires r.hi <= |s| && Splits(s, r, u, v)
    ensures Splits(s, r, v, u)
  {
  }

  method Pop(stack: array<int>, stackp0: nat, ghost rest: seq<Range>) returns (ir: nat, l: nat, stackp: nat)
    requires Stacked(stack[..], stackp0, rest) && stackp0 > 0
    ensures rest != [] && ir == rest[|rest| - 1].hi && l == rest[|rest| - 1].lo + 1
    ensures Stacked(stack[..], stackp, rest[..|rest| - 1])
  {
    stackp := stackp0;
    assert rest != [];
    StackedTop(stack[..], stackp, rest);
    hide Stacked;
    ghost var st := stack[..];
    assert stack[stackp] == st[stackp] && stack[stackp - 1] == st[stackp - 1];
    ir := stack[stackp];
    stackp := stackp - 1;
    l := stack[stackp];
    stackp := stackp - 1;
  }

  method Push(stack: array<int>, stackp0: nat, l: nat, ir: nat, ghost rest: seq<Range>) returns (stackp: nat)
    requires Stacked(stack[..], stackp0, rest) && 2 * (|rest| + 1) < NSTACK && l > 0
    modifies stack
    ensures Stacked(stack[..], stackp, rest + [Range(l - 1, ir)])
  {
    ghost var st := stack[..];
    StackedPush(st, stackp0, rest, Range(l - 1, ir));
    hide Stacked;
    stackp := stackp0 + 2;
    stack[stackp] := ir;
    stack[stackp - 1] := l;
    assert stack[..] == st[stackp := ir][stackp - 1 := l];
  }

  lemma StackedSize(stack: seq<int>, stackp: nat, rest: seq<Range>)
    requires Stacked(stack, stackp, rest)
    ensures stackp == 2 * |rest|
  {
  }

  // The range at hand is partitioned, the larger part pushed, the smaller one kept; unless the
  // push would go past the end of the stack.
  method DivideAndPush(arr: array<int>, stack: array<int>, n: nat, l0: nat, ir0: nat, stackp0: nat,
                       ghost rest: seq<Range>)
    returns (room: bool, l: nat, ir: nat, stackp: nat, ghost u: Range)
    requires arr != stack && n <= arr.Length
    requires l0 + INSERTION_THRESHOLD <= ir0 && Going(arr[..], n, rest, l0, ir0)
    requires Stacked(stack[..], stackp0, rest)
    modifies arr, stack
    ensures room <==> 2 * (|rest| + 1) < NSTACK
    ensures n + 1 < 12 * 0x100_0000 ==> room
    ensures room ==> Going(arr[..], n, rest + [u], l, ir) && Left(rest + [u], l, ir) < Left(rest, l0, ir0)
    ensures room ==> Stacked(stack[..], stackp, rest + [u])
    ensures Rearranged(old(arr[..]), arr[..], 0, n)
    ensures room && Rising(old(arr[..]), l0 - 1, ir0) ==> arr[..] == old(arr[..]) && ir - l + 2 == (ir0 - l0 + 2) / 2
  {
    hide Pending, Fits, Rearranged, Weight, Pow2, Stacked, Rising;
    l, ir, stackp := l0, ir0, stackp0;
    if n + 1 < 12 * 0x100_0000 {
      DepthBound(rest, Range(l - 1, ir), n);
    }
    StackedSize(stack[..], stackp0, rest);
    var i, j;
    ghost var v;
    i, j, u, v := Divide(arr, n, l, ir, rest);
    assert rest + [u] + [v] == rest + [u, v];
    room := stackp + 2 < NSTACK;
    if !room {
      return;
    }
    if ir - i + 1 >= j - l {
      stackp := Push(stack, stackp0, i, ir, rest);
      ir := j - 1;
    } else {
      stackp := Push(stack, stackp0, l, j - 1, rest);
      l := i;
    }
  }

  // The state of the main loop of a sort that started with s0.
  ghost predicate Running(s0: seq<int>, s: seq<int>, stack: seq<int>, stackp: nat, n: nat, rest: seq<Range>, l: nat,
                          ir: nat)
  {
    && n <= |s| && Rearranged(s0, s, 0, n)
    && Going(s, n, rest, l, ir) && Stacked(stack, stackp, rest) && Deep(s0, s, n, |rest|, l, ir)
  }

  // The first n elements are increasing, and more than the stack has room for.
  ghost predicate TooDeep(s0: seq<int>, n: nat)
  {
    n + 1 >= 12 * 0x100_0000 && Rising(s0, 0, n)
  }

  // A short range is sorted and the next one taken from the stack, if there is one.
  method FinishRange(arr: array<int>, stack: array<int>, n: nat, l0: nat, ir0: nat, stackp0: nat,
                     ghost rest0: seq<Range>, ghost s0: seq<int>)
    returns (done: bool, l: nat, ir: nat, stackp: nat, ghost rest: seq<Range>)
    requires arr != stack && ir0 - l0 < INSERTION_THRESHOLD
    requires Running(s0, arr[..], stack[..], stackp0, n, rest0, l0, ir0)
    modifies arr
    ensures done ==> n <= arr.Length && Sorted(arr[..], 0, n) && Rearranged(s0, arr[..], 0, n) && !TooDeep(s0, n)
    ensures !done ==>
              Running(s0, arr[..], stack[..], stackp, n, rest, l, ir) && Left(rest, l, ir) < Left(rest0, l0, ir0)
  {
    hide Pending, Fits, Rearranged, Sorted, Left, Going, Stacked, Deep, Rising;
    ghost var s := arr[..];
    DeepShort(s0, s, n, |rest0|, l0, ir0);
    StackedSize(stack[..], stackp0, rest0);
    SortShort(arr, n, l0, ir0, rest0);
    RearrangedTrans(s0, s, arr[..], 0, n);
    done, l, ir, stackp, rest := stackp0 == 0, l0, ir0, stackp0, rest0;
    if done {
      NonePending(arr[..], n);
      return;
    }
    Popped(arr[..], n, rest0, l, ir);
    ir, l, stackp := Pop(stack, stackp, rest0);
    rest := rest0[..|rest0| - 1];
  }

  // A long range is partitioned.
  method DivideRange(arr: array<int>, stack: array<int>, n: nat, l0: nat, ir0: nat, stackp0: nat,
                     ghost rest0: seq<Range>, ghost s0: seq<int>)
    returns (room: bool, l: nat, ir: nat, stackp: nat, ghost rest: seq<Range>)
    requires arr != stack && n <= arr.Length && l0 + INSERTION_THRESHOLD <= ir0
    requires Running(s0, arr[..], stack[..], stackp0, n, rest0, l0, ir0)
    modifies arr, stack
    ensures Rearranged(s0, arr[..], 0, n) && (n + 1 < 12 * 0x100_0000 ==> room)
    ensures room ==> Running(s0, arr[..], stack[..], stackp, n, rest, l, ir) && Left(rest, l, ir) < Left(rest0, l0, ir0)
  {
    hide Pending, Fits, Rearranged, Left, Going, Stacked, Deep, Rising;
    ghost var s := arr[..];
    ghost var u;
    GoingRange(s, n, rest0, l0, ir0);
    room, l, ir, stackp, u := DivideAndPush(arr, stack, n, l0, ir0, stackp0, rest0);
    RearrangedTrans(s0, s, arr[..], 0, n);
    rest := rest0 + [u];
    if room {
      DeepNext(s0, s, arr[..], n, |rest0|, l0, ir0, l, ir);
    }
  }

  // The first n elements end up sorted, unless the stack of NSTACK pointers does not suffice,
  // which is reported instead of writing past its end. It suffices for all arrays of a length
  // below the bound, and from there on it fails for the increasing ones.
  method Sort(n: nat, arr: array<int>) returns (room: bool)
    requires n <= arr.Length
    modifies arr
    ensures room ==> Sorted(arr[..], 0, n)
    ensures Rearranged(old(arr[..]), arr[..], 0, n)
    ensures n + 1 < 12 * 0x100_0000 ==> room
    ensures n + 1 >= 12 * 0x100_0000 && Rising(old(arr[..]), 0, n) ==> !room
  {
    var ir: nat, l: nat := n, 1;
    var stack := new int[NSTACK](_ => 0);
    var stackp: nat := 0;
    ghost var s0, rest := arr[..], [];
    RunningStart(s0, stack[..], n);
    hide Rearranged, Sorted, Left, Running, Rising;
    while true
      invariant Running(s0, arr[..], stack[..], stackp, n, rest, l, ir)
      decreases Left(rest, l, ir)
    {
      if ir - l < INSERTION_THRESHOLD {
        var done;
        done, l, ir, stackp, rest := FinishRange(arr, stack, n, l, ir, stackp, rest, s0);
        if done {
          break;
        }
      } else {
        room, l, ir, stackp, rest := DivideRange(arr, stack, n, l, ir, stackp, rest, s0);
        if !room {
          return;
        }
      }
    }
    room := true;
  }

  lemma RunningStart(s: seq<int>, stack: seq<int>, n: nat)
    requires n <= |s| && |stack| == NSTACK
    ensures Running(s, s, stack, 0, n, [], 1, n)
  {
    hide Going, Stacked, Deep, Rearranged;
    AllPending(s, n);
    StackedEmpty(stack);
    DeepStart(s, n);
  }

  lemma GoingRange(s: seq<int>, n: nat, rest: seq<Range>, l: nat, ir: nat)
    requires Going(s, n, rest, l, ir)
    ensures 1 <= l <= ir + 1 && ir <= n
  {
  }

  lemma StackedEmpty(stack: seq<int>)
    requires |stack| == NSTACK
    ensures Stacked(stack, 0, [])
  {
  }
}
