/**
 The order that a stable merge sort produces, on plain sequences: by key, ties by
 position in the input. The key of an element that has not taken part in a comparison
 may still change; elements whose key is final are settled or fixed: settled ones have
 been compared, the keys of fixed ones are known beforehand.
 */
module ListOrder {
  import opened Basics

  datatype Order<!T(==)> = Order(key: map<T, int>, pos: map<T, int>, settled: set<T>, fixed: set<T>) {

    ghost predicate KnowsAll(s: seq<T>)
    {
      forall i | 0 <= i < |s| :: s[i] in key && s[i] in pos
    }

    ghost predicate Less(x: T, y: T)
    {
      && x in key && x in pos && y in key && y in pos
      && (key[x] < key[y] || (key[x] == key[y] && pos[x] < pos[y]))
    }

    ghost predicate Sorted(s: seq<T>)
    {
      forall i, j | 0 <= i < j < |s| :: Less(s[i], s[j])
    }

    // Every element of s comes before every element of t.
    ghost predicate Before(s: seq<T>, t: seq<T>)
    {
      forall i, j | 0 <= i < |s| && 0 <= j < |t| :: Less(s[i], t[j])
    }

    ghost predicate AllSettled(s: seq<T>)
    {
      forall i | 0 <= i < |s| :: s[i] in settled
    }

    // A run is sorted, and settled as soon as it has two elements.
    ghost predicate Run(s: seq<T>)
    {
      s != [] && KnowsAll(s) && Sorted(s) && (|s| > 1 ==> AllSettled(s))
    }

    // Everything in s was in front of everything in t in the input.
    ghost predicate Earlier(s: seq<T>, t: seq<T>)
    {
      forall i, j | 0 <= i < |s| && 0 <= j < |t| ::
        s[i] in pos && t[j] in pos && pos[s[i]] < pos[t[j]]
    }

    // More elements settled, and no key of a settled or fixed element changed.
    ghost predicate Extends(o: Order<T>)
    {
      && pos == o.pos && o.settled <= settled && o.fixed <= fixed && o.key.Keys == key.Keys
      && forall x | (x in o.settled || x in o.fixed) && x in key :: key[x] == o.key[x]
    }
  }

  lemma RunExtends<T>(o: Order<T>, o': Order<T>, s: seq<T>)
    requires o'.Extends(o) && o.Run(s)
    ensures o'.Run(s)
  {
    forall i, j | 0 <= i < j < |s|
      ensures o'.Less(s[i], s[j])
    {
      assert s[i] in o.settled && s[j] in o.settled;
      assert o.Less(s[i], s[j]);
    }
  }

  lemma ExtendsSelf<T>(o: Order<T>)
    ensures o.Extends(o)
  {
  }

  lemma ExtendsTrans<T>(o: Order<T>, o': Order<T>, o'': Order<T>)
    requires o'.Extends(o) && o''.Extends(o')
    ensures o''.Extends(o)
  {
  }

  lemma EarlierAt<T>(o: Order<T>, s: seq<T>, t: seq<T>, i: nat, j: nat)
    requires o.Earlier(s, t) && i < |s| && j < |t|
    ensures s[i] in o.pos && t[j] in o.pos && o.pos[s[i]] < o.pos[t[j]]
  {
  }

  // ----- Merging -----

  // The state of a merge of two runs: what has been merged and what is left of each.
  // `mixed` says that the second run was not empty to begin with.
  ghost predicate Merging<T>(o: Order<T>, out: seq<T>, a: seq<T>, b: seq<T>, mixed: bool)
  {
    && o.KnowsAll(out) && o.KnowsAll(a) && o.KnowsAll(b)
    && o.Sorted(out) && o.Sorted(a) && o.Sorted(b)
    && o.Before(out, a) && o.Before(out, b) && o.Earlier(a, b)
    && (!mixed ==> b == [])
    && (mixed && out == [] ==> a != [] && b != [])
    && (mixed && out == [] ==> (|a| > 1 ==> o.AllSettled(a)) && (|b| > 1 ==> o.AllSettled(b)))
    && (mixed && out != [] ==> o.AllSettled(out) && o.AllSettled(a) && o.AllSettled(b))
    && (!mixed && |out| + |a| > 1 ==> o.AllSettled(out) && o.AllSettled(a))
  }

  lemma MergeStart<T>(o: Order<T>, a: seq<T>, b: seq<T>)
    requires o.Run(a) && (b == [] || (o.Run(b) && o.Earlier(a, b)))
    ensures Merging(o, [], a, b, b != [])
  {
  }

  // Comparing the two heads settles them and disturbs nothing.
  lemma MergeCompared<T>(o: Order<T>, o': Order<T>, out: seq<T>, a: seq<T>, b: seq<T>, mixed: bool)
    requires Merging(o, out, a, b, mixed) && a != [] && b != []
    requires o'.Extends(o) && o'.settled == o.settled + {a[0], b[0]}
    ensures Merging(o', out, a, b, mixed)
    ensures o'.AllSettled(out) && o'.AllSettled(a) && o'.AllSettled(b)
  {
    if out == [] {
      RunExtends(o, o', a);
      RunExtends(o, o', b);
    } else {
      LessKept(o, o', out, out);
      LessKept(o, o', a, a);
      LessKept(o, o', b, b);
      LessKept(o, o', out, a);
      LessKept(o, o', out, b);
    }
  }

  lemma LessKept<T>(o: Order<T>, o': Order<T>, s: seq<T>, t: seq<T>)
    requires o'.Extends(o) && o.AllSettled(s) && o.AllSettled(t) && o.KnowsAll(s) && o.KnowsAll(t)
    ensures forall i, j | 0 <= i < |s| && 0 <= j < |t| :: o.Less(s[i], t[j]) ==> o'.Less(s[i], t[j])
  {
  }

  // The head of the first run is next: the other run is empty or its head is not less.
  lemma MergeTakeFirst<T>(o: Order<T>, out: seq<T>, a: seq<T>, b: seq<T>, mixed: bool)
    requires Merging(o, out, a, b, mixed) && a != []
    requires b != [] ==> o.key[a[0]] <= o.key[b[0]] && o.AllSettled(a) && o.AllSettled(b) && o.AllSettled(out)
    ensures Merging(o, out + [a[0]], a[1..], b, mixed)
  {
    var out' := out + [a[0]];
    if b != [] {
      assert o.Less(a[0], b[0]);
    }
    forall j | 0 <= j < |b|
      ensures o.Less(a[0], b[j])
    {
      assert j > 0 ==> o.Less(b[0], b[j]);
    }
    forall i, j | 0 <= i < j < |out'|
      ensures o.Less(out'[i], out'[j])
    {
      assert j == |out| ==> o.Less(out[i], a[0]);
    }
  }

  // The head of the second run is next: the other run is empty or its head is greater.
  lemma MergeTakeSecond<T>(o: Order<T>, out: seq<T>, a: seq<T>, b: seq<T>, mixed: bool)
    requires Merging(o, out, a, b, mixed) && b != []
    requires a != [] ==> o.key[b[0]] < o.key[a[0]] && o.AllSettled(a) && o.AllSettled(b) && o.AllSettled(out)
    ensures Merging(o, out + [b[0]], a, b[1..], mixed)
  {
    var out' := out + [b[0]];
    if a != [] {
      assert o.Less(b[0], a[0]);
    }
    forall j | 0 <= j < |a|
      ensures o.Less(b[0], a[j])
    {
      assert j > 0 ==> o.Less(a[0], a[j]);
    }
    forall i, j | 0 <= i < j < |out'|
      ensures o.Less(out'[i], out'[j])
    {
      assert j == |out| ==> o.Less(out[i], b[0]);
    }
  }

  lemma MergeEnd<T>(o: Order<T>, out: seq<T>, mixed: bool)
    requires Merging(o, out, [], [], mixed) && out != []
    ensures o.Run(out)
  {
  }

  // ----- Runs -----

  function Flatten<T>(runs: seq<seq<T>>): seq<T>
  {
    if runs == [] then [] else runs[0] + Flatten(runs[1..])
  }

  lemma {:induction false} FlattenConcat<T>(r: seq<seq<T>>, s: seq<seq<T>>)
    ensures Flatten(r + s) == Flatten(r) + Flatten(s)
  {
    if r == [] {
      assert r + s == s;
    } else {
      FlattenConcat(r[1..], s);
      assert (r + s)[0] == r[0] && (r + s)[1..] == r[1..] + s;
      Regroup(r[0], Flatten(r[1..]), Flatten(s));
    }
  }

  // Runs of a pass: each one sorted, each one from an earlier stretch of the input than
  // the next ones.
  ghost predicate Runs<T>(o: Order<T>, runs: seq<seq<T>>)
  {
    && (forall i | 0 <= i < |runs| :: o.Run(runs[i]))
    && (forall i, j | 0 <= i < j < |runs| :: o.Earlier(runs[i], runs[j]))
  }

  // All runs but the last have length w; the last has at most that.
  ghost predicate Lengths<T>(runs: seq<seq<T>>, w: nat)
  {
    forall i | 0 <= i < |runs| :: 0 < |runs[i]| <= w && (i < |runs| - 1 ==> |runs[i]| == w)
  }

  lemma RunsExtends<T>(o: Order<T>, o': Order<T>, runs: seq<seq<T>>)
    requires o'.Extends(o) && Runs(o, runs)
    ensures Runs(o', runs)
  {
    forall i | 0 <= i < |runs|
      ensures o'.Run(runs[i])
    {
      RunExtends(o, o', runs[i]);
    }
  }
}
