/**
 The multi-threaded vector addition: every thread goes through the same phases, separated
 by barriers, and takes its memory accesses one at a time in any interleaving.
 */
module VectorAdd {
  import opened Basics
  import opened SenseBarrier
  import opened Remainder

  // The input vectors, the expected result, and the addition; nothing is assumed of the
  // addition, so rounding is covered.
  datatype Inputs<!T(==)> = Inputs(x: seq<T>, y: seq<T>, expected: seq<T>, add: (T, T) -> T) {
    function N(): nat { |x| }

    predicate Valid() { |y| == |x| == |expected| }

    function Sum(j: nat): T
      requires Valid() && j < N()
    {
      add(x[j], y[j])
    }
  }

  // What a thread is at in the current phase: its index, the value it has read and not used
  // yet, and whether thread 0 has gone from checking to copying.
  datatype Work<T> = Work(i: nat, reg: Option<T>, copying: bool)

  // The shared results z; `failed` is set when a check meets a wrong value.
  datatype State<T> = State(b: Barrier, work: seq<Work<T>>, z: seq<T>, failed: bool)

  // The thread that owns element j in the interleaved loops.
  function Owner(j: nat, nc: nat): nat
    requires nc > 0
  {
    Rem(j, nc)
  }

  // ----- Steps -----

  // The work at the start of phase k; the phase is the number of barriers left.
  function Begin<T>(k: nat, t: nat): Work<T>
  {
    Work(if k == 1 || k == 3 then t else 0, None, false)
  }

  function Initial<T>(nc: nat, z: seq<T>): State<T>
  {
    State(SenseBarrier.Initial(nc), seq(nc, _ => Begin(0, 0)), z, false)
  }

  predicate Sized<T>(c: Inputs<T>, s: State<T>)
  {
    c.Valid() && |s.z| == c.N() && |s.work| == |s.b.threads| > 0
  }

  predicate HasWork<T>(c: Inputs<T>, s: State<T>, t: nat)
    requires Sized(c, s) && t < |s.work|
  {
    var w := s.work[t];
    match s.b.threads[t].left
    case 1 => w.i < c.N()
    case 2 => t == 0 && (w.i < c.N() || !w.copying)
    case 3 => w.i < c.N()
    case 4 => t == 0 && w.i < c.N()
    case _ => false
  }

  function SetWork<T>(s: State<T>, t: nat, w: Work<T>): State<T>
    requires t < |s.work|
  {
    s.(work := s.work[t := w])
  }

  // One iteration of the addition, in two accesses: z[i] = src[i] + y[i].
  function AddStep<T>(c: Inputs<T>, s: State<T>, t: nat, src: seq<T>): State<T>
    requires Sized(c, s) && t < |s.work| && s.work[t].i < c.N() == |src|
  {
    var w := s.work[t];
    if w.reg.None? then SetWork(s, t, w.(reg := Some(c.add(src[w.i], c.y[w.i]))))
    else SetWork(s.(z := s.z[w.i := w.reg.value]), t, Work(w.i + |s.work|, None, w.copying))
  }

  // One access of the check: elements are read in pairs and compared after the second read;
  // the last one of an odd number is compared alone.
  function CheckStep<T>(c: Inputs<T>, s: State<T>, t: nat): State<T>
    requires Sized(c, s) && t < |s.work| && s.work[t].i < c.N()
  {
    var w := s.work[t];
    if w.reg.None? && w.i + 1 < c.N() then SetWork(s, t, Work(w.i + 1, Some(s.z[w.i]), w.copying))
    else SetWork(s.(failed := Differs(c, s, w)), t, Work(w.i + 1, None, w.copying))
  }

  // What is compared at the end of a round of the check.
  predicate Differs<T>(c: Inputs<T>, s: State<T>, w: Work<T>)
    requires Sized(c, s) && w.i < c.N()
  {
    || (w.reg.Some? && w.i > 0 && w.reg.value != c.expected[w.i - 1])
    || s.z[w.i] != c.expected[w.i]
  }

  function WorkStep<T>(c: Inputs<T>, s: State<T>, t: nat): State<T>
    requires Sized(c, s) && t < |s.work| && HasWork(c, s, t)
  {
    var w := s.work[t];
    match s.b.threads[t].left
    case 1 => AddStep(c, s, t, c.x)
    case 3 => AddStep(c, s, t, s.z)
    case 2 =>
      if w.copying then SetWork(s.(z := s.z[w.i := c.x[w.i]]), t, w.(i := w.i + 1))
      else if w.i < c.N() then CheckStep(c, s, t)
      else SetWork(s, t, Work(0, None, true))
    case _ => CheckStep(c, s, t)
  }

  // A step inside the barrier; leaving it begins the next phase.
  function BarrierStep<T>(s: State<T>, t: nat): State<T>
    requires t < |s.work| == |s.b.threads|
  {
    var b' := Next(s.b, t);
    var leaves := !s.b.threads[t].pc.Outside? && b'.threads[t].pc.Outside?;
    var s' := s.(b := b');
    if leaves then SetWork(s', t, Begin(b'.threads[t].left, t)) else s'
  }

  // The next step of thread t: its work, then the barrier; after five barriers, or once a
  // check has failed, the program is over.
  function NextState<T>(c: Inputs<T>, s: State<T>, t: nat): State<T>
    requires Sized(c, s) && t < |s.work|
  {
    if s.failed then s
    else if !s.b.threads[t].pc.Outside? then BarrierStep(s, t)
    else if HasWork(c, s, t) then WorkStep(c, s, t)
    else if s.b.threads[t].left < 5 then BarrierStep(s, t)
    else s
  }

  // ----- The invariant -----

  // Thread t has work to show for the current phase.
  predicate Began<T>(s: State<T>, t: nat)
    requires t < |s.b.threads|
  {
    s.b.threads[t].left == s.b.epoch
  }

  ghost predicate WorkOk<T>(c: Inputs<T>, s: State<T>, t: nat)
    requires Sized(c, s) && t < |s.work|
  {
    var th, w, e := s.b.threads[t], s.work[t], s.b.epoch;
    && (!th.pc.Outside? ==> th.left < 5)
    && (Began(s, t) && (e == 1 || e == 3) ==>
          && Owner(w.i, |s.work|) == t
          && (w.reg.Some? ==> w.i < c.N() && w.reg.value == c.Sum(w.i))
          && (!th.pc.Outside? ==> w.i >= c.N()))
    && (Began(s, t) && e == 2 && t == 0 ==>
          w.i <= c.N() && (!th.pc.Outside? ==> w.copying && w.i == c.N()))
    && (Checking(s, t) && w.reg.Some? ==> 0 < w.i < c.N() && w.reg.value == c.Sum(w.i - 1))
  }

  // Thread t is thread 0 in one of the two checks.
  predicate Checking<T>(s: State<T>, t: nat)
    requires t < |s.work| && t < |s.b.threads|
  {
    t == 0 && Began(s, t) && (s.b.epoch == 4 || (s.b.epoch == 2 && !s.work[t].copying))
  }

  // The first m expected values are the sums.
  ghost predicate RightTo<T>(c: Inputs<T>, m: int)
    requires c.Valid()
  {
    forall j | 0 <= j < m && j < c.N() :: c.expected[j] == c.Sum(j)
  }

  // All expected values are the sums.
  ghost predicate Right<T>(c: Inputs<T>)
    requires c.Valid()
  {
    RightTo(c, c.N())
  }

  // How many of the expected values thread 0 has compared with its results.
  function Compared<T>(c: Inputs<T>, s: State<T>): int
    requires Sized(c, s)
  {
    var w := s.work[0];
    if s.b.epoch >= 3 || (s.b.epoch == 2 && Began(s, 0) && w.copying) then c.N()
    else if s.b.epoch == 2 && Began(s, 0) then if w.reg.Some? then w.i - 1 else w.i
    else 0
  }

  // The owner of element j has stored it in the current phase.
  predicate Stored<T>(s: State<T>, j: nat)
    requires |s.work| == |s.b.threads| > 0
  {
    var t := Owner(j, |s.work|);
    t < |s.work| && Began(s, t) && j < s.work[t].i
  }

  ghost predicate ElementOk<T>(c: Inputs<T>, s: State<T>, j: nat)
    requires Sized(c, s) && j < c.N()
  {
    match s.b.epoch
    case 0 => true
    case 1 => Stored(s, j) ==> s.z[j] == c.Sum(j)
    case 2 => s.z[j] == if Began(s, 0) && s.work[0].copying && j < s.work[0].i then c.x[j] else c.Sum(j)
    case 3 => s.z[j] == if Stored(s, j) then c.Sum(j) else c.x[j]
    case _ => s.z[j] == c.Sum(j)
  }

  ghost predicate Inv<T>(c: Inputs<T>, s: State<T>)
  {
    && Sized(c, s) && SenseBarrier.Inv(s.b) && !s.failed
    && (forall t: nat | t < |s.work| :: WorkOk(c, s, t))
    && (forall j: nat | j < c.N() :: ElementOk(c, s, j))
    && RightTo(c, Compared(c, s))
  }

  // What holds after every step: the invariant, or the program has stopped at a check because
  // some expected value is not the sum.
  ghost predicate Outcome<T>(c: Inputs<T>, s: State<T>)
  {
    if s.failed then c.Valid() && !Right(c) else Inv(c, s)
  }

  lemma InitialInv<T>(c: Inputs<T>, nc: nat, z: seq<T>)
    requires c.Valid() && |z| == c.N() && nc > 0
    ensures Inv(c, Initial(nc, z))
  {
    SenseBarrier.InitialInv(nc);
  }

  // ----- Every step keeps the invariant -----

  lemma InvKept<T>(c: Inputs<T>, s: State<T>, t: nat)
    requires Inv(c, s) && t < |s.work|
    ensures Outcome(c, NextState(c, s, t))
  {
    if !s.b.threads[t].pc.Outside? {
      if s.b.threads[t].pc.Releasing? {
        ReleaseKeepsData(c, s, t);
      } else {
        InsideKeepsData(c, s, t);
      }
    } else if HasWork(c, s, t) {
      WorkKeepsData(c, s, t);
    } else if s.b.threads[t].left < 5 {
      EnterKeepsData(c, s, t);
    }
  }

  // A thread with no work left has finished its part of the phase.
  lemma EnterKeepsData<T>(c: Inputs<T>, s: State<T>, t: nat)
    requires Inv(c, s) && t < |s.work| && s.b.threads[t].pc.Outside? && !HasWork(c, s, t) && s.b.threads[t].left < 5
    ensures Inv(c, BarrierStep(s, t))
  {
    var s' := BarrierStep(s, t);
    SenseBarrier.InvKept(s.b, t);
    assert ThreadOk(s.b.threads[t], s.b.epoch) && WorkOk(c, s, t);
    SameData(c, s, s', t);
  }

  // When neither the epoch nor anybody's phase, work or results change, all elements stay as
  // they have to be.
  lemma SameData<T>(c: Inputs<T>, s: State<T>, s': State<T>, t: nat)
    requires Inv(c, s) && t < |s.work| && SenseBarrier.Inv(s'.b)
    requires s' == s.(b := s'.b) && s'.b.epoch == s.b.epoch && |s'.b.threads| == |s.b.threads|
    requires s'.b.threads == s.b.threads[t := s'.b.threads[t]] && s'.b.threads[t].left == s.b.threads[t].left
    requires WorkOk(c, s', t)
    ensures Inv(c, s')
  {
    hide SenseBarrier.Inv;
    forall u: nat | u < |s.work|
      ensures WorkOk(c, s', u)
    {
      assert WorkOk(c, s, u);
    }
    forall j: nat | j < c.N()
      ensures ElementOk(c, s', j)
    {
      assert ElementOk(c, s, j);
    }
  }

  lemma InsideKeepsData<T>(c: Inputs<T>, s: State<T>, t: nat)
    requires Inv(c, s) && t < |s.work| && !s.b.threads[t].pc.Outside? && !s.b.threads[t].pc.Releasing?
    ensures Inv(c, BarrierStep(s, t))
  {
    var s' := BarrierStep(s, t);
    SenseBarrier.InvKept(s.b, t);
    assert ThreadOk(s.b.threads[t], s.b.epoch);
    assert WorkOk(c, s, t);
    if s'.b.threads[t].pc.Outside? {
      LeaveKeepsData(c, s, t);
    } else {
      assert s'.b.threads == s.b.threads[t := s'.b.threads[t]];
      SameData(c, s, s', t);
    }
  }

  // A thread that leaves after the release begins the phase with nothing stored.
  lemma LeaveKeepsData<T>(c: Inputs<T>, s: State<T>, t: nat)
    requires Inv(c, s) && t < |s.work| && s.b.threads[t].pc.Spinning? && s.b.sense == s.b.threads[t].sense
    ensures Inv(c, BarrierStep(s, t))
  {
    var s' := BarrierStep(s, t);
    SenseBarrier.InvKept(s.b, t);
    assert ThreadOk(s.b.threads[t], s.b.epoch) && WorkOk(c, s, t);
    hide SenseBarrier.Inv;
    forall u: nat | u < |s.work|
      ensures WorkOk(c, s', u)
    {
      assert WorkOk(c, s, u);
    }
    forall j: nat | j < c.N()
      ensures ElementOk(c, s', j)
    {
      assert ElementOk(c, s, j);
      assert Stored(s', j) <==> Stored(s, j);
    }
  }

  // At the release everybody has finished the phase, so its results are complete.
  lemma ReleaseKeepsData<T>(c: Inputs<T>, s: State<T>, t: nat)
    requires Inv(c, s) && t < |s.work| && s.b.threads[t].pc.Releasing?
    ensures Inv(c, BarrierStep(s, t))
  {
    var s' := BarrierStep(s, t);
    SenseBarrier.InvKept(s.b, t);
    assert LeaderOk(s.b, t) && ThreadOk(s.b.threads[t], s.b.epoch);
    hide SenseBarrier.Inv;
    forall u: nat | u < |s.work|
      ensures WorkOk(c, s', u)
    {
      assert WorkOk(c, s, u);
    }
    forall j: nat | j < c.N()
      ensures ElementOk(c, s', j)
    {
      assert ElementOk(c, s, j);
      var u := Owner(j, |s.work|);
      assert WorkOk(c, s, u) && WorkOk(c, s, 0);
      assert !Stored(s', j);
    }
  }

  lemma WorkKeepsData<T>(c: Inputs<T>, s: State<T>, t: nat)
    requires Inv(c, s) && t < |s.work| && s.b.threads[t].pc.Outside? && HasWork(c, s, t)
    ensures Outcome(c, WorkStep(c, s, t))
  {
    var s' := WorkStep(c, s, t);
    WorkCompares(c, s, t);
    hide SenseBarrier.Inv, WorkStep, WorkOk, ElementOk, Compared, RightTo;
    forall u: nat | u < |s.work|
      ensures Sized(c, s') && WorkOk(c, s', u)
    {
      WorkThread(c, s, t, u);
    }
    forall j: nat | j < c.N()
      ensures ElementOk(c, s', j)
    {
      WorkElement(c, s, t, j);
    }
  }

  lemma WorkThread<T>(c: Inputs<T>, s: State<T>, t: nat, u: nat)
    requires Inv(c, s) && t < |s.work| && s.b.threads[t].pc.Outside? && HasWork(c, s, t) && u < |s.work|
    ensures Sized(c, WorkStep(c, s, t)) && WorkOk(c, WorkStep(c, s, t), u)
  {
    var nc := |s.work|;
    assert ThreadOk(s.b.threads[t], s.b.epoch) && WorkOk(c, s, t) && WorkOk(c, s, u);
    hide SenseBarrier.Inv;
    if u == t {
      if s.work[t].i < c.N() {
        assert ElementOk(c, s, s.work[t].i);
      }
      hide Inv;
      assert Rem(s.work[t].i + nc, nc) == Rem(s.work[t].i, nc);
    }
  }

  // What a check has compared was right, and where it stops something is wrong.
  lemma WorkCompares<T>(c: Inputs<T>, s: State<T>, t: nat)
    requires Inv(c, s) && t < |s.work| && s.b.threads[t].pc.Outside? && HasWork(c, s, t)
    ensures var s' := WorkStep(c, s, t);
            && s'.b == s.b && Sized(c, s')
            && if s'.failed then !Right(c) else RightTo(c, Compared(c, s'))
  {
    assert ThreadOk(s.b.threads[t], s.b.epoch) && WorkOk(c, s, t);
    hide SenseBarrier.Inv;
    if s.work[t].i < c.N() {
      assert ElementOk(c, s, s.work[t].i);
    }
  }

  lemma WorkElement<T>(c: Inputs<T>, s: State<T>, t: nat, j: nat)
    requires Inv(c, s) && t < |s.work| && s.b.threads[t].pc.Outside? && HasWork(c, s, t) && j < c.N()
    ensures Sized(c, WorkStep(c, s, t)) && ElementOk(c, WorkStep(c, s, t), j)
  {
    var s' := WorkStep(c, s, t);
    var w, nc := s.work[t], |s.work|;
    assert ThreadOk(s.b.threads[t], s.b.epoch) && WorkOk(c, s, t) && ElementOk(c, s, j);
    hide SenseBarrier.Inv;
    if (s.b.epoch == 1 || s.b.epoch == 3) && w.reg.Some? {
      if Owner(j, nc) == t && w.i <= j < w.i + nc {
        RemGap(w.i, j, nc);
      }
      assert j != w.i ==> (Stored(s', j) <==> Stored(s, j));
    } else {
      assert Stored(s', j) ==> Stored(s, j) || s.b.epoch == 2 || s.b.epoch == 4;
    }
  }

  // ----- What the program guarantees -----

  // Thread t is the next to act on z at this place, reading or writing.
  datatype Access = Access(at: nat, write: bool)

  // The access to the shared results that the next step of thread t makes.
  function NextAccess<T>(c: Inputs<T>, s: State<T>, t: nat): Option<Access>
    requires Sized(c, s) && t < |s.work|
  {
    var w := s.work[t];
    if s.failed || !s.b.threads[t].pc.Outside? || !HasWork(c, s, t) then None
    else
      match s.b.threads[t].left
      case 1 => if w.reg.None? then None else Some(Access(w.i, true))
      case 3 => Some(Access(w.i, w.reg.Some?))
      case 2 => if w.i < c.N() then Some(Access(w.i, w.copying)) else None
      case _ => Some(Access(w.i, false))
  }

  // The accesses named are the only ones: a step changes z only where it is said to write.
  lemma AccessesNamed<T>(c: Inputs<T>, s: State<T>, t: nat, j: nat)
    requires Sized(c, s) && t < |s.work| && j < c.N() && NextState(c, s, t).z[j] != s.z[j]
    ensures NextAccess(c, s, t) == Some(Access(j, true))
  {
  }

  // They are elements of z; a step that reads one depends on no other, and one that writes one
  // leaves the same z whatever was there.
  lemma AccessesExact<T>(c: Inputs<T>, s: State<T>, t: nat, k: nat, v: T)
    requires Sized(c, s) && t < |s.work| && k < c.N() && !s.failed
    ensures var a, s2 := NextAccess(c, s, t), s.(z := s.z[k := v]);
            && (a.Some? ==> a.value.at < c.N())
            && (a.None? || a.value.at != k ==>
                  NextState(c, s2, t).work == NextState(c, s, t).work
                  && NextState(c, s2, t).failed == NextState(c, s, t).failed)
            && (a == Some(Access(k, true)) ==> NextState(c, s2, t).z == NextState(c, s, t).z)
  {
    hide BarrierStep;
    BarrierKeepsResults(s, s.z[k := v], t);
  }

  lemma BarrierKeepsResults<T>(s: State<T>, z: seq<T>, t: nat)
    requires t < |s.work| == |s.b.threads|
    ensures BarrierStep(s.(z := z), t) == BarrierStep(s, t).(z := z)
    ensures BarrierStep(s, t).z == s.z && BarrierStep(s, t).failed == s.failed
  {
  }

  // No two threads are about to access the same element unless both read it.
  lemma RaceFree<T>(c: Inputs<T>, s: State<T>, t: nat, u: nat)
    requires Inv(c, s) && t < |s.work| && u < |s.work| && t != u
    requires NextAccess(c, s, t).Some? && NextAccess(c, s, u).Some?
    ensures NextAccess(c, s, t).value.at == NextAccess(c, s, u).value.at ==>
              !NextAccess(c, s, t).value.write && !NextAccess(c, s, u).value.write
  {
    assert ThreadOk(s.b.threads[t], s.b.epoch) && ThreadOk(s.b.threads[u], s.b.epoch);
    assert WorkOk(c, s, t) && WorkOk(c, s, u);
  }

  // Whenever thread 0 checks an element, it finds the sum of the inputs there.
  lemma ChecksSeeSums<T>(c: Inputs<T>, s: State<T>)
    requires Inv(c, s) && s.b.threads[0].pc.Outside? && HasWork(c, s, 0)
    requires s.b.threads[0].left == 4 || (s.b.threads[0].left == 2 && !s.work[0].copying)
    ensures s.work[0].i < c.N() ==> s.z[s.work[0].i] == c.Sum(s.work[0].i)
  {
    assert ThreadOk(s.b.threads[0], s.b.epoch);
    if s.work[0].i < c.N() {
      assert ElementOk(c, s, s.work[0].i);
    }
  }

  ghost predicate Run<T>(c: Inputs<T>, ss: seq<State<T>>)
  {
    && (forall i | 0 <= i < |ss| :: Sized(c, ss[i]))
    && (forall i | 0 <= i < |ss| - 1 :: Steps(c, ss[i], ss[i + 1]))
  }

  ghost predicate Steps<T>(c: Inputs<T>, s: State<T>, s': State<T>)
    requires Sized(c, s)
  {
    exists t: nat | t < |s.work| :: s' == NextState(c, s, t)
  }

  // In every state of every run the invariant holds, or a check has found a wrong expected
  // value.
  lemma {:induction false} RunKeeps<T>(c: Inputs<T>, ss: seq<State<T>>, nc: nat, z: seq<T>, k: nat)
    requires c.Valid() && |z| == c.N() && nc > 0
    requires Run(c, ss) && k < |ss| && ss[0] == Initial(nc, z)
    ensures Outcome(c, ss[k])
  {
    hide Inv, NextState;
    if k == 0 {
      InitialInv(c, nc, z);
    } else {
      RunKeeps(c, ss, nc, z, k - 1);
      assert Steps(c, ss[k - 1], ss[k - 1 + 1]);
      var t: nat :| t < |ss[k - 1].work| && ss[k] == NextState(c, ss[k - 1], t);
      if ss[k - 1].failed {
        StaysFailed(c, ss[k - 1], t);
      } else {
        InvKept(c, ss[k - 1], t);
      }
    }
  }

  lemma StaysFailed<T>(c: Inputs<T>, s: State<T>, t: nat)
    requires Sized(c, s) && t < |s.work| && s.failed
    ensures NextState(c, s, t) == s
  {
  }

  // No check ever fails on the right reference data.
  lemma NoCheckFails<T>(c: Inputs<T>, ss: seq<State<T>>, nc: nat, z: seq<T>, k: nat)
    requires c.Valid() && |z| == c.N() && nc > 0
    requires Run(c, ss) && k < |ss| && ss[0] == Initial(nc, z)
    requires Right(c)
    ensures !ss[k].failed && Inv(c, ss[k])
  {
    RunKeeps(c, ss, nc, z, k);
  }

  // Nobody gets past the second barrier after the first check on wrong reference data.
  lemma WrongDataStops<T>(c: Inputs<T>, ss: seq<State<T>>, nc: nat, z: seq<T>, k: nat, t: nat)
    requires c.Valid() && |z| == c.N() && nc > 0
    requires Run(c, ss) && k < |ss| && ss[0] == Initial(nc, z)
    requires !Right(c) && t < |ss[k].work|
    ensures ss[k].failed || ss[k].b.threads[t].left <= 2
  {
    RunKeeps(c, ss, nc, z, k);
    if !ss[k].failed {
      assert ThreadOk(ss[k].b.threads[t], ss[k].b.epoch);
    }
  }

  // After the last barrier the results and the expected values are the sums.
  lemma ResultsAreSums<T>(c: Inputs<T>, s: State<T>, t: nat)
    requires Inv(c, s) && t < |s.work| && s.b.threads[t].left == 5
    ensures forall j | 0 <= j < c.N() :: s.z[j] == c.Sum(j)
    ensures Right(c)
  {
    assert ThreadOk(s.b.threads[t], s.b.epoch);
    forall j | 0 <= j < c.N()
      ensures s.z[j] == c.Sum(j)
    {
      assert ElementOk(c, s, j);
    }
  }

  // A check stops at a round if and only if an expected value of that round is not the sum.
  lemma CheckFinds<T>(c: Inputs<T>, s: State<T>)
    requires Inv(c, s) && s.b.threads[0].pc.Outside? && HasWork(c, s, 0) && s.work[0].i < c.N()
    requires s.b.threads[0].left == 4 || (s.b.threads[0].left == 2 && !s.work[0].copying)
    ensures var w := s.work[0];
            if w.reg.None? && w.i + 1 < c.N() then !NextState(c, s, 0).failed
            else NextState(c, s, 0).failed <==>
                   || (w.reg.Some? && w.i > 0 && c.expected[w.i - 1] != c.Sum(w.i - 1))
                   || c.expected[w.i] != c.Sum(w.i)
  {
    assert ThreadOk(s.b.threads[0], s.b.epoch) && WorkOk(c, s, 0);
    ChecksSeeSums(c, s);
  }

  // ----- The program ends -----

  // The next step of thread t changes something.
  predicate Goes<T>(c: Inputs<T>, s: State<T>, t: nat)
    requires Sized(c, s) && t < |s.work|
  {
    var th := s.b.threads[t];
    !s.failed && if th.pc.Outside? then HasWork(c, s, t) || th.left < 5 else Moves(s.b, t)
  }

  // Elements from i on, ...
  function Rest<T>(c: Inputs<T>, i: nat): nat
    requires c.Valid()
  {
    if i < c.N() then c.N() - i else 0
  }

  // ... and the accesses a thread has left in its phase, at most: two for every element it may
  // add, or, for thread 0, one for every element to check and to copy.
  function ToDo<T>(c: Inputs<T>, s: State<T>, t: nat): nat
    requires Sized(c, s) && t < |s.work|
  {
    var w := s.work[t];
    match s.b.threads[t].left
    case 1 => 2 * Rest(c, w.i) + (if w.reg.None? then 1 else 0)
    case 3 => 2 * Rest(c, w.i) + (if w.reg.None? then 1 else 0)
    case 2 => if t != 0 then 0 else if w.copying then Rest(c, w.i) else Rest(c, w.i) + c.N() + 1
    case 4 => if t != 0 then 0 else Rest(c, w.i)
    case _ => 0
  }

  // Enough for k phases and their barriers.
  function Budget(n: nat, k: nat): nat
  {
    if k == 0 then 0 else Budget(n, k - 1) + 2 * n + 6
  }

  // The steps thread t has in front of it, at most.
  function StepsLeft<T>(c: Inputs<T>, s: State<T>, t: nat): nat
    requires Sized(c, s) && t < |s.work|
  {
    var th := s.b.threads[t];
    Budget(c.N(), if th.left < 5 then 5 - th.left else 0)
    + if th.pc.Outside? then 4 + ToDo(c, s, t) else ThreadAhead(th)
  }

  // Only thread t's part of the state is another one.
  ghost predicate OnlyThread<T>(s: State<T>, s': State<T>, t: nat)
  {
    && |s'.work| == |s.work| && |s'.b.threads| == |s.b.threads| && |s'.z| == |s.z| && |s.work| == |s.b.threads|
    && forall u: nat | u < |s.work| && u != t :: s'.b.threads[u] == s.b.threads[u] && s'.work[u] == s.work[u]
  }

  lemma WorkAdvances<T>(c: Inputs<T>, s: State<T>, t: nat)
    requires Sized(c, s) && t < |s.work| && s.b.threads[t].pc.Outside? && HasWork(c, s, t)
    ensures var s' := WorkStep(c, s, t);
            OnlyThread(s, s', t) && StepsLeft(c, s', t) < StepsLeft(c, s, t)
  {
    hide Differs, Budget;
  }

  lemma EnterAdvances<T>(c: Inputs<T>, s: State<T>, t: nat)
    requires Sized(c, s) && t < |s.work| && s.b.threads[t].pc.Outside?
    ensures var s' := BarrierStep(s, t);
            OnlyThread(s, s', t) && StepsLeft(c, s', t) < StepsLeft(c, s, t)
  {
    hide Budget, ToDo;
  }

  lemma InsideAdvances<T>(c: Inputs<T>, s: State<T>, t: nat)
    requires Sized(c, s) && t < |s.work| && s.b.threads[t].left < 5 && Moves(s.b, t)
    ensures var s' := BarrierStep(s, t);
            OnlyThread(s, s', t) && StepsLeft(c, s', t) < StepsLeft(c, s, t)
  {
    hide ToDo, Budget, Begin;
    if s.b.threads[t].pc.Releasing? || s.b.threads[t].pc.Spinning? {
      LeaveAdvances(c, s, t);
    }
  }

  lemma LeaveAdvances<T>(c: Inputs<T>, s: State<T>, t: nat)
    requires Sized(c, s) && t < |s.work| && s.b.threads[t].left < 5 && Moves(s.b, t)
    requires s.b.threads[t].pc.Releasing? || s.b.threads[t].pc.Spinning?
    ensures var s' := BarrierStep(s, t);
            OnlyThread(s, s', t) && StepsLeft(c, s', t) < StepsLeft(c, s, t)
  {
    hide ToDo, Budget, Begin;
    BudgetNext(c.N(), 5 - s.b.threads[t].left);
    BeginToDo(c, BarrierStep(s, t), t);
  }

  lemma BudgetNext(n: nat, k: nat)
    requires k > 0
    ensures Budget(n, k) == Budget(n, k - 1) + 2 * n + 6
  {
  }

  lemma BeginToDo<T>(c: Inputs<T>, s: State<T>, t: nat)
    requires Sized(c, s) && t < |s.work|
    ensures s.work[t] == Begin(s.b.threads[t].left, t) ==> ToDo(c, s, t) <= 2 * c.N() + 1
  {
  }

  lemma GoesAdvances<T>(c: Inputs<T>, s: State<T>, t: nat)
    requires Inv(c, s) && t < |s.work| && Goes(c, s, t)
    ensures var s' := NextState(c, s, t);
            && Sized(c, s') && |s'.work| == |s.work| && StepsLeft(c, s', t) < StepsLeft(c, s, t)
            && forall u: nat | u < |s.work| && u != t :: StepsLeft(c, s', u) == StepsLeft(c, s, u)
  {
    hide SenseBarrier.Inv, ElementOk, Compared, RightTo, StepsLeft, WorkStep, BarrierStep, Moves;
    assert WorkOk(c, s, t);
    if !s.b.threads[t].pc.Outside? {
      InsideAdvances(c, s, t);
    } else if HasWork(c, s, t) {
      WorkAdvances(c, s, t);
    } else {
      EnterAdvances(c, s, t);
    }
    var s' := NextState(c, s, t);
    forall u: nat | u < |s.work| && u != t
      ensures StepsLeft(c, s', u) == StepsLeft(c, s, u)
    {
      SameThread(c, s, s', t, u);
    }
  }

  lemma SameThread<T>(c: Inputs<T>, s: State<T>, s': State<T>, t: nat, u: nat)
    requires Sized(c, s) && Sized(c, s') && OnlyThread(s, s', t) && u < |s.work| && u != t
    ensures StepsLeft(c, s', u) == StepsLeft(c, s, u)
  {
  }

  function TotalLeft<T>(c: Inputs<T>, s: State<T>, k: nat): nat
    requires Sized(c, s) && k <= |s.work|
  {
    if k == 0 then 0 else TotalLeft(c, s, k - 1) + StepsLeft(c, s, k - 1)
  }

  lemma {:induction false} TotalDrops<T>(c: Inputs<T>, s: State<T>, s': State<T>, t: nat, k: nat)
    requires Sized(c, s) && Sized(c, s') && |s'.work| == |s.work| && t < |s.work| && k <= |s.work|
    requires StepsLeft(c, s', t) < StepsLeft(c, s, t)
    requires forall u: nat | u < |s.work| && u != t :: StepsLeft(c, s', u) == StepsLeft(c, s, u)
    ensures if k <= t then TotalLeft(c, s', k) == TotalLeft(c, s, k) else TotalLeft(c, s', k) < TotalLeft(c, s, k)
    decreases k
  {
    hide StepsLeft;
    if k > 0 {
      TotalDrops(c, s, s', t, k - 1);
    }
  }

  // Nobody enters a sixth barrier.
  ghost predicate UpToFive<T>(s: State<T>)
  {
    forall t: nat | t < |s.b.threads| :: s.b.threads[t].Entered() <= 5
  }

  lemma UpToFiveKept<T>(c: Inputs<T>, s: State<T>, t: nat)
    requires Sized(c, s) && UpToFive(s) && t < |s.work|
    ensures UpToFive(NextState(c, s, t))
  {
    hide HasWork, Differs;
  }

  // If nobody can go on, all have left the fifth barrier.
  lemma AllOver<T>(c: Inputs<T>, s: State<T>)
    requires Inv(c, s) && UpToFive(s) && forall t: nat | t < |s.work| :: !Goes(c, s, t)
    ensures forall t: nat | t < |s.work| :: s.b.threads[t].pc.Outside? && s.b.threads[t].left == 5
  {
    hide ElementOk, Compared, RightTo;
    forall t: nat | t < |s.work|
      ensures s.b.threads[t].pc.Outside? && s.b.threads[t].left == 5
    {
      assert !Goes(c, s, t) && WorkOk(c, s, t) && ThreadOk(s.b.threads[t], s.b.epoch);
      if !s.b.threads[t].pc.Outside? {
        forall u: nat | u < |s.work|
          ensures !s.b.threads[u].pc.Outside? && !Moves(s.b, u)
        {
          assert !Goes(c, s, u) && WorkOk(c, s, u) && ThreadOk(s.b.threads[u], s.b.epoch);
        }
        NotStuck(s.b);
      }
    }
  }

  ghost predicate GoesIn<T>(c: Inputs<T>, s: State<T>, moved: seq<nat>)
    requires Sized(c, s)
    decreases |moved|
  {
    moved == []
    || (moved[0] < |s.work| && Goes(c, s, moved[0]) && Sized(c, NextState(c, s, moved[0]))
        && GoesIn(c, NextState(c, s, moved[0]), moved[1..]))
  }

  ghost function AfterGoing<T>(c: Inputs<T>, s: State<T>, moved: seq<nat>): State<T>
    requires Sized(c, s) && GoesIn(c, s, moved)
    decreases |moved|
  {
    if moved == [] then s else AfterGoing(c, NextState(c, s, moved[0]), moved[1..])
  }

  // In whatever order the threads go on, the program ends: after a bounded number of steps
  // nobody can, and then a check has stopped it or every thread is through.
  lemma {:induction false} ProgramEnds<T>(c: Inputs<T>, s: State<T>, moved: seq<nat>)
    requires Sized(c, s) && Inv(c, s) && UpToFive(s) && GoesIn(c, s, moved)
    ensures |moved| <= TotalLeft(c, s, |s.work|)
    ensures var s' := AfterGoing(c, s, moved);
            && Outcome(c, s') && Sized(c, s')
            && ((forall t: nat | t < |s'.work| :: !Goes(c, s', t)) && !s'.failed ==>
                  forall t: nat | t < |s'.work| :: s'.b.threads[t].pc.Outside? && s'.b.threads[t].left == 5)
    decreases |moved|
  {
    hide Inv, NextState, StepsLeft, Goes, UpToFive, Outcome;
    InvOutcome(c, s);
    if moved == [] {
      if forall t: nat | t < |s.work| :: !Goes(c, s, t) {
        AllOver(c, s);
      }
    } else {
      var s1 := NextState(c, s, moved[0]);
      InvKept(c, s, moved[0]);
      UpToFiveKept(c, s, moved[0]);
      GoesAdvances(c, s, moved[0]);
      OutcomeCases(c, s1);
      TotalDrops(c, s, s1, moved[0], |s.work|);
      if s1.failed {
        FailedStays(c, s1, moved[1..]);
      } else {
        ProgramEnds(c, s1, moved[1..]);
      }
    }
  }

  lemma InvOutcome<T>(c: Inputs<T>, s: State<T>)
    requires Inv(c, s)
    ensures Outcome(c, s)
  {
  }

  lemma OutcomeCases<T>(c: Inputs<T>, s: State<T>)
    requires Outcome(c, s)
    ensures s.failed || Inv(c, s)
  {
  }

  lemma FailedStays<T>(c: Inputs<T>, s: State<T>, moved: seq<nat>)
    requires Sized(c, s) && s.failed && GoesIn(c, s, moved)
    ensures moved == []
  {
  }

  // ----- The check -----

  function Sums<T>(c: Inputs<T>): (r: seq<T>)
    requires c.Valid()
    ensures |r| == c.N() && forall j | 0 <= j < c.N() :: r[j] == c.Sum(j)
  {
    seq(c.N(), j requires 0 <= j < c.N() => c.Sum(j))
  }

  // One more than the index of the first difference, from index k on, or zero.
  function Verdict<T(==)>(test: seq<T>, expected: seq<T>, n: nat, k: nat): nat
    requires k <= n <= |test| && n <= |expected|
    decreases n - k
  {
    if k == n then 0
    else if test[k] != expected[k] then k + 1
    else Verdict(test, expected, n, k + 1)
  }

  lemma {:induction false} VerdictMeans<T>(test: seq<T>, expected: seq<T>, n: nat, k: nat)
    requires k <= n <= |test| && n <= |expected|
    ensures var r := Verdict(test, expected, n, k);
            if r == 0 then forall j | k <= j < n :: test[j] == expected[j]
            else k < r <= n && test[r - 1] != expected[r - 1] && forall j | k <= j < r - 1 :: test[j] == expected[j]
    decreases n - k
  {
    if k < n && test[k] == expected[k] {
      VerdictMeans(test, expected, n, k + 1);
    }
  }

  lemma {:induction false} VerdictFrom<T>(test: seq<T>, expected: seq<T>, n: nat, i: nat, k: nat)
    requires i <= k <= n <= |test| && n <= |expected|
    requires forall j | i <= j < k :: test[j] == expected[j]
    ensures Verdict(test, expected, n, i) == Verdict(test, expected, n, k)
    decreases k - i
  {
    if i < k {
      VerdictFrom(test, expected, n, i + 1, k);
    }
  }

  // When a round of the check stops the program, its answer, the index of the first of the
  // round's elements that differs plus one, is the answer of the check on all the sums.
  lemma StopsWithVerdict<T>(c: Inputs<T>, s: State<T>)
    requires Inv(c, s) && s.b.threads[0].pc.Outside? && HasWork(c, s, 0) && s.work[0].i < c.N()
    requires s.b.threads[0].left == 2 && !s.work[0].copying && NextState(c, s, 0).failed
    ensures var w := s.work[0];
            Verdict(Sums(c), c.expected, c.N(), 0)
            == if w.reg.Some? && w.i > 0 && c.expected[w.i - 1] != c.Sum(w.i - 1) then w.i else w.i + 1
  {
    var w := s.work[0];
    assert ThreadOk(s.b.threads[0], s.b.epoch) && WorkOk(c, s, 0);
    CheckFinds(c, s);
    var k: nat := if w.reg.Some? then w.i - 1 else w.i;
    VerdictFrom(Sums(c), c.expected, c.N(), 0, k);
  }

  // The check reads two elements at a time; its answer is one more than the index of the
  // first difference, or zero.
  method VerifyDouble<T(==)>(n: nat, test: seq<T>, expected: seq<T>) returns (r: nat)
    requires n <= |test| && n <= |expected|
    ensures r == Verdict(test, expected, n, 0)
    ensures if r == 0 then forall j | 0 <= j < n :: test[j] == expected[j]
            else r <= n && test[r - 1] != expected[r - 1] && forall j | 0 <= j < r - 1 :: test[j] == expected[j]
  {
    VerdictMeans(test, expected, n, 0);
    var i := 0;
    hide Verdict;
    while i < n / 2 * 2
      invariant 0 <= i <= n / 2 * 2 && i % 2 == 0
      invariant Verdict(test, expected, n, i) == Verdict(test, expected, n, 0)
    {
      var t0, t1 := test[i], test[i + 1];
      var v0, v1 := expected[i], expected[i + 1];
      var eq1, eq2 := t0 == v0, t1 == v1;
      VerdictNext(test, expected, n, i);
      VerdictNext(test, expected, n, i + 1);
      if !(eq1 && eq2) {
        return i + 1 + if eq1 then 1 else 0;
      }
      i := i + 2;
    }
    if i < n {
      VerdictNext(test, expected, n, i);
    }
    VerdictNone(test, expected, n);
    if n % 2 != 0 && test[n - 1] != expected[n - 1] {
      return n;
    }
    return 0;
  }

  lemma VerdictNext<T>(test: seq<T>, expected: seq<T>, n: nat, k: nat)
    requires k < n <= |test| && n <= |expected|
    ensures Verdict(test, expected, n, k) == if test[k] != expected[k] then k + 1 else Verdict(test, expected, n, k + 1)
  {
  }

  lemma VerdictNone<T>(test: seq<T>, expected: seq<T>, n: nat)
    requires n <= |test| && n <= |expected|
    ensures Verdict(test, expected, n, n) == 0
  {
  }
}
