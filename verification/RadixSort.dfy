/**
 The radix sort benchmark: four stable counting passes over the bytes of the keys, from the
 lowest to the highest, moving the data between two arrays.
 */
module RadixSort {
  import opened Basics

  const BASE := 256

  type word = x: int | 0 <= x < 0x1_0000_0000

  // (a >> log_exp) % BASE with log_exp = 8 k.
  function Digit(a: word, k: nat): (d: nat)
    ensures d < BASE
  {
    if k == 0 then a % 0x100
    else if k == 1 then a / 0x100 % 0x100
    else if k == 2 then a / 0x1_0000 % 0x100
    else a / 0x100_0000 % 0x100
  }

  // ----- What a pass computes -----

  // The elements of s with digit v, in their order.
  function Filter(s: seq<word>, k: nat, v: nat): seq<word>
  {
    if s == [] then []
    else (if Digit(s[0], k) == v then [s[0]] else []) + Filter(s[1..], k, v)
  }

  // The elements with a digit below v, by digit, those with the same digit in their order.
  function Gather(s: seq<word>, k: nat, v: nat): seq<word>
  {
    if v == 0 then [] else Gather(s, k, v - 1) + Filter(s, k, v - 1)
  }

  // Where the elements with digit v begin.
  function Start(s: seq<word>, k: nat, v: nat): nat { |Gather(s, k, v)| }

  function Pass(s: seq<word>, k: nat): seq<word> { Gather(s, k, BASE) }

  lemma {:induction false} FilterConcat(s: seq<word>, t: seq<word>, k: nat, v: nat)
    ensures Filter(s + t, k, v) == Filter(s, k, v) + Filter(t, k, v)
  {
    hide Digit;
    if s == [] {
      assert s + t == t;
    } else {
      FilterConcat(s[1..], t, k, v);
      var h := if Digit(s[0], k) == v then [s[0]] else [];
      Regroup(h, Filter(s[1..], k, v), Filter(t, k, v));
      assert (s + t)[0] == s[0] && (s + t)[1..] == s[1..] + t;
    }
  }

  // ----- A pass only rearranges -----

  function Below(s: seq<word>, k: nat, v: nat): multiset<word>
  {
    if s == [] then multiset{}
    else (if Digit(s[0], k) < v then multiset{s[0]} else multiset{}) + Below(s[1..], k, v)
  }

  lemma {:induction false} BelowStep(s: seq<word>, k: nat, v: nat)
    ensures Below(s, k, v + 1) == Below(s, k, v) + multiset(Filter(s, k, v))
  {
    if s != [] {
      BelowStep(s[1..], k, v);
    }
  }

  lemma {:induction false} GatherIsBelow(s: seq<word>, k: nat, v: nat)
    ensures multiset(Gather(s, k, v)) == Below(s, k, v)
  {
    hide Filter, Below, Digit;
    if v == 0 {
      NoneBelow(s, k);
    } else {
      GatherIsBelow(s, k, v - 1);
      BelowStep(s, k, v - 1);
    }
  }

  lemma {:induction false} NoneBelow(s: seq<word>, k: nat)
    ensures Below(s, k, 0) == multiset{}
  {
    if s != [] {
      NoneBelow(s[1..], k);
    }
  }

  lemma {:induction false} AllBelow(s: seq<word>, k: nat)
    ensures Below(s, k, BASE) == multiset(s)
  {
    if s != [] {
      AllBelow(s[1..], k);
      assert s == [s[0]] + s[1..];
    }
  }

  lemma PassPermutes(s: seq<word>, k: nat)
    ensures multiset(Pass(s, k)) == multiset(s) && |Pass(s, k)| == |s|
  {
    hide Gather, Below;
    GatherIsBelow(s, k, BASE);
    AllBelow(s, k);
    assert |multiset(Pass(s, k))| == |multiset(s)|;
  }

  // ----- A pass sorts by one more digit -----

  // a comes no later than b by the digits below k.
  predicate Le(a: word, b: word, k: nat)
  {
    k == 0 || Digit(a, k - 1) < Digit(b, k - 1) || (Digit(a, k - 1) == Digit(b, k - 1) && Le(a, b, k - 1))
  }

  ghost predicate SortedBy(s: seq<word>, k: nat)
  {
    forall i, j | 0 <= i < j < |s| :: Le(s[i], s[j], k)
  }

  // A filter of a sorted sequence is sorted, and no element of it comes before the head.
  lemma {:induction false} FilterSorted(s: seq<word>, k: nat, v: nat, m: nat)
    requires SortedBy(s, m)
    ensures SortedBy(Filter(s, k, v), m)
  {
    if s != [] {
      FilterSorted(s[1..], k, v, m);
      if Digit(s[0], k) == v {
        var r := Filter(s[1..], k, v);
        forall j | 0 <= j < |r|
          ensures Le(s[0], r[j], m)
        {
          FilterMember(s[1..], k, v, r[j]);
        }
      }
    }
  }

  lemma {:induction false} FilterMember(s: seq<word>, k: nat, v: nat, x: word)
    requires x in Filter(s, k, v)
    ensures x in s && Digit(x, k) == v
  {
    if s != [] && x in Filter(s[1..], k, v) {
      FilterMember(s[1..], k, v, x);
    }
  }

  lemma {:induction false} GatherMember(s: seq<word>, k: nat, v: nat, x: word)
    requires x in Gather(s, k, v)
    ensures Digit(x, k) < v
  {
    if x in Gather(s, k, v - 1) {
      GatherMember(s, k, v - 1, x);
    } else {
      FilterMember(s, k, v - 1, x);
    }
  }

  lemma {:induction false} GatherSorted(s: seq<word>, k: nat, v: nat)
    requires SortedBy(s, k)
    ensures SortedBy(Gather(s, k, v), k + 1)
  {
    if v > 0 {
      GatherSorted(s, k, v - 1);
      FilterSorted(s, k, v - 1, k);
      var g, f := Gather(s, k, v - 1), Filter(s, k, v - 1);
      assert Gather(s, k, v) == g + f;
      hide Gather, Filter, Digit, SortedBy;
      forall x | x in g
        ensures Digit(x, k) < v - 1
      {
        GatherMember(s, k, v - 1, x);
      }
      forall x | x in f
        ensures Digit(x, k) == v - 1
      {
        FilterMember(s, k, v - 1, x);
      }
      SortedConcat(g, f, k, v - 1);
    }
  }

  // Elements with smaller digits, in order by k + 1 digits, followed by elements with the
  // same digit, in order by the k digits below it.
  lemma SortedConcat(g: seq<word>, f: seq<word>, k: nat, v: nat)
    requires SortedBy(g, k + 1) && SortedBy(f, k)
    requires (forall x | x in g :: Digit(x, k) < v) && (forall x | x in f :: Digit(x, k) == v)
    ensures SortedBy(g + f, k + 1)
  {
    var r := g + f;
    hide Digit;
    forall i, j | 0 <= i < j < |r|
      ensures Le(r[i], r[j], k + 1)
    {
      if i >= |g| {
        assert Le(f[i - |g|], f[j - |g|], k);
        assert r[i] in f && r[j] in f;
      } else if j >= |g| {
        assert r[i] in g && r[j] in f;
      }
    }
  }

  // Comparing by all four digits is comparing.
  lemma LeIsLessOrEqual(a: word, b: word)
    ensures Le(a, b, 4) <==> a <= b
  {
    var a0, a1, a2, a3 := Digit(a, 0), Digit(a, 1), Digit(a, 2), Digit(a, 3);
    var b0, b1, b2, b3 := Digit(b, 0), Digit(b, 1), Digit(b, 2), Digit(b, 3);
    Digits(a);
    Digits(b);
    assert Le(a, b, 1) <==> a0 <= b0;
    assert Le(a, b, 2) <==> a1 < b1 || (a1 == b1 && a0 <= b0);
    assert Le(a, b, 3) <==> a2 < b2 || (a2 == b2 && Le(a, b, 2));
    assert Le(a, b, 4) <==> a3 < b3 || (a3 == b3 && Le(a, b, 3));
  }

  lemma Digits(a: word)
    ensures a == Digit(a, 0) + 0x100 * Digit(a, 1) + 0x1_0000 * Digit(a, 2) + 0x100_0000 * Digit(a, 3)
  {
    var q1, q2, q3 := a / 0x100, a / 0x1_0000, a / 0x100_0000;
    DigitStep(a, q1, q2, 0x100);
    DigitStep(a, q2, q3, 0x1_0000);
    assert Digit(a, 0) == a - 0x100 * q1;
    assert Digit(a, 1) == q1 - 0x100 * q2;
    assert Digit(a, 2) == q2 - 0x100 * q3;
    assert Digit(a, 3) == q3;
  }

  lemma DigitStep(a: word, q: nat, q': nat, w: nat)
    requires w == 0x100 || w == 0x1_0000
    requires q == a / w && q' == a / (0x100 * w)
    ensures q % 0x100 == q - 0x100 * q'
  {
    if w == 0x100 {
      assert 0 <= q - 0x100 * q' < 0x100;
    } else {
      assert 0 <= q - 0x100 * q' < 0x100;
    }
  }

  function Passes(s: seq<word>, k: nat): seq<word>
  {
    if k == 0 then s else Pass(Passes(s, k - 1), k - 1)
  }

  lemma NoDigits(s: seq<word>)
    ensures SortedBy(s, 0)
  {
  }

  lemma PassSorts(s: seq<word>, k: nat)
    requires SortedBy(s, k)
    ensures SortedBy(Pass(s, k), k + 1)
  {
    hide Gather, SortedBy;
    GatherSorted(s, k, BASE);
  }

  // After k passes the data is a permutation in order by the low 8 k bits.
  lemma {:induction false} PassesSort(s: seq<word>, k: nat)
    ensures SortedBy(Passes(s, k), k) && multiset(Passes(s, k)) == multiset(s) && |Passes(s, k)| == |s|
  {
    hide Pass, Gather, SortedBy;
    assert k == 0 ==> SortedBy(Passes(s, 0), 0) by { NoDigits(s); }
    if k > 0 {
      PassesSort(s, k - 1);
      PassSorts(Passes(s, k - 1), k - 1);
      PassPermutes(Passes(s, k - 1), k - 1);
    }
  }

  ghost predicate Sorted(s: seq<word>)
  {
    forall i, j | 0 <= i < j < |s| :: s[i] <= s[j]
  }

  lemma FourPassesSort(s: seq<word>)
    ensures Sorted(Passes(s, 4)) && multiset(Passes(s, 4)) == multiset(s)
  {
    PassesSort(s, 4);
    var r := Passes(s, 4);
    hide Passes, Le;
    forall i, j | 0 <= i < j < |r|
      ensures r[i] <= r[j]
    {
      assert Le(r[i], r[j], 4);
      LeIsLessOrEqual(r[i], r[j]);
    }
  }

  // ----- Counting -----

  // b holds the number of elements of s with each digit.
  ghost predicate Counts(b: seq<int>, s: seq<word>, k: nat)
  {
    |b| == BASE && forall v: nat {:trigger b[v]} | v < BASE :: b[v] == |Filter(s, k, v)|
  }

  lemma CountsStep(b: seq<int>, b': seq<int>, s: seq<word>, s': seq<word>, k: nat, p: nat)
    requires p < |s'| && s == s'[..p] && Counts(b, s, k)
    requires b' == b[Digit(s'[p], k) := b[Digit(s'[p], k)] + 1]
    ensures Counts(b', s'[..p + 1], k)
  {
    var a := s'[p];
    assert s'[..p + 1] == s + [a];
    forall v: nat | v < BASE
      ensures b'[v] == |Filter(s'[..p + 1], k, v)|
    {
      assert b[v] == |Filter(s, k, v)|;
      FilterConcat(s, [a], k, v);
      FilterOne(a, k, v);
    }
  }

  lemma FilterOne(a: word, k: nat, v: nat)
    ensures Filter([a], k, v) == if Digit(a, k) == v then [a] else []
  {
    assert [a][1..] == [];
  }

  // fetch_add: the value before the addition.
  method FetchAdd(bucket: array<int>, v: nat, inc: int) returns (before: int)
    requires v < bucket.Length
    modifies bucket
    ensures before == old(bucket[v]) && bucket[..] == old(bucket[..])[v := old(bucket[v]) + inc]
  {
    before := bucket[v];
    ghost var b := bucket[..];
    bucket[v] := before + inc;
    assert bucket[..] == b[v := before + inc];
  }

  method CountOne(bucket: array<int>, a: word, k: nat, ghost s: seq<word>, ghost p: nat)
    requires p < |s| && s[p] == a && Counts(bucket[..], s[..p], k)
    modifies bucket
    ensures Counts(bucket[..], s[..p + 1], k)
  {
    ghost var b := bucket[..];
    assert bucket.Length == |b|;
    var before := FetchAdd(bucket, Digit(a, k), 1);
    assert before == b[Digit(a, k)];
    CountsStep(b, bucket[..], s[..p], s, k, p);
  }

  method Histogram(n: nat, arr: array<word>, bucket: array<int>, k: nat)
    requires 3 <= n <= arr.Length && bucket.Length == BASE
    modifies bucket
    ensures Counts(bucket[..], arr[..n], k)
  {
    hide Counts;
    ghost var s := arr[..n];
    var b := 0;
    while b < BASE
      invariant b <= BASE && forall v | 0 <= v < b :: bucket[v] == 0
    {
      bucket[b] := 0;
      b := b + 1;
    }
    CountsNothing(bucket[..], k);
    var p: nat := 0;
    assert s[..0] == [];
    while p < n - 3
      invariant p <= n && Counts(bucket[..], s[..p], k)
    {
      var a0, a1, a2, a3 := arr[p], arr[p + 1], arr[p + 2], arr[p + 3];
      CountOne(bucket, a0, k, s, p);
      CountOne(bucket, a1, k, s, p + 1);
      CountOne(bucket, a2, k, s, p + 2);
      CountOne(bucket, a3, k, s, p + 3);
      p := p + 4;
    }
    while p < n
      invariant p <= n && Counts(bucket[..], s[..p], k)
    {
      CountOne(bucket, arr[p], k, s, p);
      p := p + 1;
    }
    assert s[..n] == s;
  }

  lemma CountsNothing(b: seq<int>, k: nat)
    requires |b| == BASE && forall v | 0 <= v < BASE :: b[v] == 0
    ensures Counts(b, [], k)
  {
  }

  // ----- Prefix sums -----

  // Up to m the entries have become the ends of the buckets.
  ghost predicate Ends(b: seq<int>, s: seq<word>, k: nat, m: nat)
  {
    && |b| == BASE
    && forall v: nat {:trigger b[v]} | v < BASE :: b[v] == if v < m then Start(s, k, v + 1) else |Filter(s, k, v)|
  }

  lemma EndsStep(b: seq<int>, b': seq<int>, s: seq<word>, k: nat, m: nat)
    requires m < BASE && Ends(b, s, k, m) && b' == b[m := b[m] + Start(s, k, m)]
    ensures Ends(b', s, k, m + 1) && Start(s, k, m + 1) == Start(s, k, m) + b[m]
  {
    assert b[m] == |Filter(s, k, m)|;
    assert Gather(s, k, m + 1) == Gather(s, k, m) + Filter(s, k, m);
    hide Gather, Filter;
    forall v: nat | v < BASE
      ensures b'[v] == if v < m + 1 then Start(s, k, v + 1) else |Filter(s, k, v)|
    {
      assert b[v] == if v < m then Start(s, k, v + 1) else |Filter(s, k, v)|;
    }
  }

  lemma EndsStart(b: seq<int>, s: seq<word>, k: nat)
    requires Counts(b, s, k)
    ensures |b| == BASE && Ends(b, s, k, 1) && b[0] == Start(s, k, 1)
  {
    assert Gather(s, k, 1) == [] + Filter(s, k, 0);
    assert b[0] == |Filter(s, k, 0)|;
    hide Gather, Filter;
    forall v: nat | v < BASE
      ensures b[v] == if v < 1 then Start(s, k, v + 1) else |Filter(s, k, v)|
    {
      assert b[v] == |Filter(s, k, v)|;
    }
  }

  method Extend(bucket: array<int>, prev0: int, ghost s: seq<word>, k: nat, m: nat) returns (prev: int)
    requires m < BASE && Ends(bucket[..], s, k, m) && prev0 == Start(s, k, m)
    modifies bucket
    ensures Ends(bucket[..], s, k, m + 1) && prev == Start(s, k, m + 1)
  {
    ghost var b := bucket[..];
    assert bucket.Length == |b|;
    hide Ends, Start, Gather, Filter;
    var before := FetchAdd(bucket, m, prev0);
    prev := prev0 + before;
    assert before == b[m];
    EndsStep(b, bucket[..], s, k, m);
  }

  method PrefixSums(bucket: array<int>, ghost s: seq<word>, k: nat)
    requires Counts(bucket[..], s, k)
    modifies bucket
    ensures Ends(bucket[..], s, k, BASE)
  {
    hide Ends, Start, Counts, Gather, Filter;
    EndsStart(bucket[..], s, k);
    var prev := bucket[0];
    prev := Extend(bucket, prev, s, k, 1);
    var b: nat := 2;
    while b < BASE
      invariant b <= BASE && b % 2 == 0
      invariant Ends(bucket[..], s, k, b) && prev == Start(s, k, b)
    {
      prev := Extend(bucket, prev, s, k, b);
      prev := Extend(bucket, prev, s, k, b + 1);
      b := b + 2;
    }
  }

  // ----- Scattering -----

  // The elements of s from i on with digit v stand at the end of their bucket in t, and
  // b[v] is where they begin.
  ghost predicate BucketOk(s: seq<word>, k: nat, b: seq<int>, t: seq<word>, i: nat, v: nat)
    requires i <= |s| && v < |b|
  {
    var e := Start(s, k, v + 1);
    && e <= |t| && b[v] + |Filter(s[i..], k, v)| == e && 0 <= b[v]
    && t[b[v]..e] == Filter(s[i..], k, v)
  }

  ghost predicate Scattered(s: seq<word>, k: nat, b: seq<int>, t: seq<word>, i: nat)
  {
    i <= |s| <= |t| && |b| == BASE && forall v: nat | v < BASE :: BucketOk(s, k, b, t, i, v)
  }

  lemma {:induction false} StartGrows(s: seq<word>, k: nat, u: nat, v: nat)
    requires u <= v
    ensures Start(s, k, u) <= Start(s, k, v)
    decreases v
  {
    if u < v {
      StartGrows(s, k, u, v - 1);
    }
  }

  lemma StartWithin(s: seq<word>, k: nat, v: nat)
    requires v <= BASE
    ensures Start(s, k, v) <= |s|
  {
    hide Gather;
    StartGrows(s, k, v, BASE);
    PassPermutes(s, k);
  }

  lemma ScatterStart(s: seq<word>, k: nat, b: seq<int>, t: seq<word>)
    requires Ends(b, s, k, BASE) && |s| <= |t|
    ensures Scattered(s, k, b, t, |s|)
  {
    hide Gather;
    forall v: nat | v < BASE
      ensures BucketOk(s, k, b, t, |s|, v)
    {
      assert b[v] == if v < BASE then Start(s, k, v + 1) else |Filter(s, k, v)|;
      StartWithin(s, k, v + 1);
    }
  }

  // What is left of bucket v in front of its cursor: room for the elements not yet moved.
  lemma CursorRoom(s: seq<word>, k: nat, b: seq<int>, t: seq<word>, i: nat, v: nat)
    requires i <= |s| && v < |b| && BucketOk(s, k, b, t, i, v)
    ensures b[v] == Start(s, k, v) + |Filter(s[..i], k, v)|
  {
    assert Gather(s, k, v + 1) == Gather(s, k, v) + Filter(s, k, v);
    hide Gather, Filter;
    assert s == s[..i] + s[i..];
    FilterConcat(s[..i], s[i..], k, v);
  }

  lemma FilterSplit(s: seq<word>, k: nat, i: nat, v: nat)
    requires 0 < i <= |s|
    ensures Filter(s[i - 1..], k, v) == (if Digit(s[i - 1], k) == v then [s[i - 1]] else []) + Filter(s[i..], k, v)
    ensures |Filter(s[..i], k, v)| == |Filter(s[..i - 1], k, v)| + if Digit(s[i - 1], k) == v then 1 else 0
  {
    assert s[i - 1..] == [s[i - 1]] + s[i..];
    assert s[..i] == s[..i - 1] + [s[i - 1]];
    FilterConcat([s[i - 1]], s[i..], k, v);
    FilterConcat(s[..i - 1], [s[i - 1]], k, v);
    FilterOne(s[i - 1], k, v);
  }

  // One element is put in front of those already in its bucket.
  lemma ScatterStep(s: seq<word>, k: nat, b: seq<int>, t: seq<word>, i: nat)
    requires 0 < i && Scattered(s, k, b, t, i)
    ensures var a := s[i - 1]; var d := Digit(a, k);
            && 0 <= b[d] - 1 < |t|
            && Scattered(s, k, b[d := b[d] - 1], t[b[d] - 1 := a], i - 1)
  {
    var a := s[i - 1];
    var d := Digit(a, k);
    var p := b[d] - 1;
    assert BucketOk(s, k, b, t, i, d);
    CursorRoom(s, k, b, t, i, d);
    FilterSplit(s, k, i, d);
    assert Start(s, k, d) <= p < Start(s, k, d + 1);
    var b', t' := b[d := p], t[p := a];
    hide Gather, Filter, Digit, Start, BucketOk;
    forall v: nat {:trigger BucketOk(s, k, b', t', i - 1, v)} | v < BASE
      ensures BucketOk(s, k, b', t', i - 1, v)
    {
      assert BucketOk(s, k, b, t, i, v);
      ScatterBucket(s, k, b, t, b', t', i, p, v);
    }
  }

  // The bucket of the moved element gains it in front; the others are untouched.
  lemma ScatterBucket(s: seq<word>, k: nat, b: seq<int>, t: seq<word>, b': seq<int>, t': seq<word>, i: nat, p: nat,
                      v: nat)
    requires 0 < i <= |s| && |b| == |b'| == BASE && v < BASE && p < |t|
    requires BucketOk(s, k, b, t, i, v)
    requires var d := Digit(s[i - 1], k);
             b' == b[d := p] && t' == t[p := s[i - 1]] && p == b[d] - 1 && Start(s, k, d) <= p < Start(s, k, d + 1)
    ensures BucketOk(s, k, b', t', i - 1, v)
  {
    hide Gather, Filter, Digit, Start;
    var d := Digit(s[i - 1], k);
    FilterSplit(s, k, i, v);
    CursorRoom(s, k, b, t, i, v);
    if v < d {
      StartGrows(s, k, v + 1, d);
    } else if v > d {
      StartGrows(s, k, d + 1, v);
    }
    BucketMoved(Filter(s[i..], k, v), Filter(s[i - 1..], k, v), b, t, b', t', p, s[i - 1], v, d, Start(s, k, v + 1));
  }

  lemma BucketMoved(f: seq<word>, f': seq<word>, b: seq<int>, t: seq<word>, b': seq<int>, t': seq<word>,
                    p: nat, a: word, v: nat, d: nat, e: nat)
    requires v < |b| && d < |b| && p < |t| && e <= |t| && 0 <= b[v] && b[v] + |f| == e && t[b[v]..e] == f
    requires b' == b[d := p] && t' == t[p := a] && p == b[d] - 1
    requires v == d ==> p < e && f' == [a] + f
    requires v != d ==> !(b[v] <= p < e) && f' == [] + f
    ensures 0 <= b'[v] && b'[v] + |f'| == e && t'[b'[v]..e] == f'
  {
    if v == d {
      PutBefore(t, p, a, e);
    } else {
      PutElsewhere(t, p, a, b[v], e);
    }
  }

  lemma PutBefore(t: seq<word>, p: nat, a: word, e: nat)
    requires p < e <= |t|
    ensures t[p := a][p..e] == [a] + t[p + 1..e]
  {
  }

  lemma PutElsewhere(t: seq<word>, p: nat, a: word, b: nat, e: nat)
    requires p < |t| && b <= e <= |t| && !(b <= p < e)
    ensures t[p := a][b..e] == t[b..e]
  {
  }

  // When all elements have been moved, the buckets side by side are the result.
  lemma {:induction false} ScatterEnd(s: seq<word>, k: nat, b: seq<int>, t: seq<word>, v: nat)
    requires Scattered(s, k, b, t, 0) && v <= BASE
    ensures Start(s, k, v) <= |t| && t[..Start(s, k, v)] == Gather(s, k, v)
    decreases v
  {
    if v > 0 {
      ScatterEnd(s, k, b, t, v - 1);
      assert BucketOk(s, k, b, t, 0, v - 1);
      CursorRoom(s, k, b, t, 0, v - 1);
      assert Gather(s, k, v) == Gather(s, k, v - 1) + Filter(s, k, v - 1);
      hide Gather, Filter, Digit;
      assert s[0..] == s && s[..0] == [];
      var m, e := Start(s, k, v - 1), Start(s, k, v);
      assert t[..e] == t[..m] + t[m..e];
    }
  }

  // The cursor of the element's bucket steps back; the element goes there later.
  method TakePlace(bucket: array<int>, a: word, k: nat) returns (place: int)
    requires bucket.Length == BASE
    modifies bucket
    ensures place == old(bucket[Digit(a, k)]) - 1
    ensures bucket[..] == old(bucket[..])[Digit(a, k) := place]
  {
    var before := FetchAdd(bucket, Digit(a, k), -1);
    place := before - 1;
  }

  method PutAt(scratch: array<word>, place: nat, a: word)
    requires place < scratch.Length
    modifies scratch
    ensures scratch[..] == old(scratch[..])[place := a]
  {
    ghost var t := scratch[..];
    scratch[place] := a;
    assert scratch[..] == t[place := a];
  }

  // Four elements: all are read and given their places before any is written.
  method ScatterFour(arr: array<word>, scratch: array<word>, bucket: array<int>, k: nat, p: nat, ghost s: seq<word>)
    requires arr != scratch && 3 <= p < |s| <= arr.Length && s == arr[..|s|]
    requires Scattered(s, k, bucket[..], scratch[..], p + 1)
    modifies scratch, bucket
    ensures Scattered(s, k, bucket[..], scratch[..], p - 3)
  {
    assert bucket.Length == BASE;
    hide Scattered, Digit;
    var a0, a1, a2, a3 := arr[p], arr[p - 1], arr[p - 2], arr[p - 3];
    assert a0 == s[p] && a1 == s[p - 1] && a2 == s[p - 2] && a3 == s[p - 3];
    ghost var b, t := bucket[..], scratch[..];
    ScatterStep(s, k, b, t, p + 1);
    var s0 := TakePlace(bucket, a0, k);
    t := t[s0 := a0];
    ScatterStep(s, k, bucket[..], t, p);
    var s1 := TakePlace(bucket, a1, k);
    t := t[s1 := a1];
    ScatterStep(s, k, bucket[..], t, p - 1);
    var s2 := TakePlace(bucket, a2, k);
    t := t[s2 := a2];
    ScatterStep(s, k, bucket[..], t, p - 2);
    var s3 := TakePlace(bucket, a3, k);
    t := t[s3 := a3];
    PutAt(scratch, s0, a0);
    PutAt(scratch, s1, a1);
    PutAt(scratch, s2, a2);
    PutAt(scratch, s3, a3);
  }

  method ScatterOne(arr: array<word>, scratch: array<word>, bucket: array<int>, k: nat, p: nat, ghost s: seq<word>)
    requires arr != scratch && p < |s| <= arr.Length && s == arr[..|s|]
    requires Scattered(s, k, bucket[..], scratch[..], p + 1)
    modifies scratch, bucket
    ensures Scattered(s, k, bucket[..], scratch[..], p)
  {
    assert bucket.Length == BASE;
    hide Scattered, Digit;
    var a := arr[p];
    assert a == s[p];
    ScatterStep(s, k, bucket[..], scratch[..], p + 1);
    var place := TakePlace(bucket, a, k);
    PutAt(scratch, place, a);
  }

  method Scatter(n: nat, arr: array<word>, scratch: array<word>, bucket: array<int>, k: nat)
    requires arr != scratch && 3 <= n <= arr.Length && n <= scratch.Length
    requires Ends(bucket[..], arr[..n], k, BASE)
    modifies scratch, bucket
    ensures scratch[..n] == Pass(arr[..n], k)
  {
    hide Scattered, Ends, Gather, Pass;
    ghost var s := arr[..n];
    ScatterStart(s, k, bucket[..], scratch[..]);
    var p := n - 1;
    while p >= 3
      invariant -1 <= p < n && Scattered(s, k, bucket[..], scratch[..], p + 1)
    {
      ScatterFour(arr, scratch, bucket, k, p, s);
      p := p - 4;
    }
    while p >= 0
      invariant -1 <= p < n && Scattered(s, k, bucket[..], scratch[..], p + 1)
      decreases p
    {
      ScatterOne(arr, scratch, bucket, k, p, s);
      p := p - 1;
    }
    ScatterDone(s, k, bucket[..], scratch[..]);
    assert scratch[..n] == scratch[..][..n];
  }

  lemma ScatterDone(s: seq<word>, k: nat, b: seq<int>, t: seq<word>)
    requires Scattered(s, k, b, t, 0)
    ensures |s| <= |t| && t[..|s|] == Pass(s, k)
  {
    hide Gather;
    ScatterEnd(s, k, b, t, BASE);
    PassPermutes(s, k);
  }

  // ----- The sort -----

  // After k passes the data is in the caller's array or in the other one, in turn.
  ghost predicate Turn(logExp: nat, k: nat, arr: array<word>, scratch: array<word>, arrIn: array<word>,
                       scratchIn: array<word>)
  {
    && logExp == 8 * k <= 32
    && if k % 2 == 0 then arr == arrIn && scratch == scratchIn else arr == scratchIn && scratch == arrIn
  }

  lemma Turns(logExp: nat, k: nat, arr: array<word>, scratch: array<word>, arrIn: array<word>, scratchIn: array<word>)
    ensures logExp == 0 && k == 0 && arr == arrIn && scratch == scratchIn ==>
              Turn(logExp, k, arr, scratch, arrIn, scratchIn)
    ensures Turn(logExp, k, arr, scratch, arrIn, scratchIn) ==>
              && logExp / 8 == k
              && (logExp < 32 ==> Turn(logExp + 8, k + 1, scratch, arr, arrIn, scratchIn))
              && (logExp >= 32 ==> k == 4 && arr == arrIn)
              && ((arr == arrIn && scratch == scratchIn) || (arr == scratchIn && scratch == arrIn))
  {
  }

  method OnePass(n: nat, arr: array<word>, scratch: array<word>, bucket: array<int>, k: nat)
    requires 3 <= n <= arr.Length && n <= scratch.Length && arr != scratch && bucket.Length == BASE
    modifies scratch, bucket
    ensures scratch[..n] == Pass(arr[..n], k)
  {
    hide Pass, Counts, Ends;
    Histogram(n, arr, bucket, k);
    PrefixSums(bucket, arr[..n], k);
    Scatter(n, arr, scratch, bucket, k);
  }

  lemma NoPass(s: seq<word>)
    ensures Passes(s, 0) == s
  {
  }

  lemma NextPass(s: seq<word>, k: nat)
    ensures Passes(s, k + 1) == Pass(Passes(s, k), k)
  {
  }

  // A pass over what is left by k passes.
  method PassOn(n: nat, arr: array<word>, scratch: array<word>, bucket: array<int>, k: nat, ghost s: seq<word>)
    requires 3 <= n <= arr.Length && n <= scratch.Length && arr != scratch && bucket.Length == BASE
    requires arr[..n] == Passes(s, k)
    modifies scratch, bucket
    ensures scratch[..n] == Passes(s, k + 1)
  {
    hide Pass, Passes;
    OnePass(n, arr, scratch, bucket, k);
    NextPass(s, k);
  }

  // The caller's array is in order after four passes, and it is the one the data ends up in.
  method Sort(n: nat, arrIn: array<word>, scratchIn: array<word>)
    requires 3 <= n <= arrIn.Length && n <= scratchIn.Length && arrIn != scratchIn
    modifies arrIn, scratchIn
    ensures arrIn[..n] == Passes(old(arrIn[..n]), 4)
    ensures Sorted(arrIn[..n]) && multiset(arrIn[..n]) == multiset(old(arrIn[..n]))
  {
    ghost var s := arrIn[..n];
    hide Sorted, Pass, Passes, Turn;
    assert Passes(s, 0) == s by { NoPass(s); }
    var logExp: nat := 0;
    var bucket := new int[BASE];
    var arr, scratch := arrIn, scratchIn;
    assert Turn(logExp, 0, arr, scratch, arrIn, scratchIn) by { Turns(logExp, 0, arr, scratch, arrIn, scratchIn); }
    ghost var k: nat := 0;
    while logExp < 32
      invariant Turn(logExp, k, arr, scratch, arrIn, scratchIn)
      invariant arr in {arrIn, scratchIn} && scratch in {arrIn, scratchIn} && arr != scratch
      invariant arr[..n] == Passes(s, k)
      decreases 32 - logExp
    {
      Turns(logExp, k, arr, scratch, arrIn, scratchIn);
      PassOn(n, arr, scratch, bucket, logExp / 8, s);
      assert scratch[..n] == Passes(s, k + 1);
      arr, scratch := scratch, arr;
      logExp := logExp + 8;
      k := k + 1;
    }
    Turns(logExp, k, arr, scratch, arrIn, scratchIn);
    FourPassesSort(s);
    // An even number of passes: nothing is left to copy back.
    if arr != arrIn {
      assert false;
    }
  }
}
