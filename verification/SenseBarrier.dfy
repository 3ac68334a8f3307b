/**
 The sense-reversing barrier as a state machine: any number of threads, each taking the
 atomic steps of the barrier function one at a time, in any order.
 */
module SenseBarrier {

  // Where a thread stands: outside the barrier, about to add to the count, about to reset
  // the count, about to publish its sense, or waiting for the published sense to change.
  datatype Pc = Outside | Adding | Resetting | Releasing | Spinning

  // A thread with its own sense and the number of barriers it has left.
  datatype Thread = Thread(pc: Pc, sense: bool, left: nat) {
    function Entered(): nat { if pc.Outside? then left else left + 1 }

    predicate Leader() { pc.Resetting? || pc.Releasing? }

    predicate Arrived(epoch: nat) { (pc.Spinning? || Leader()) && left == epoch }
  }

  // The shared variables and all threads; the epoch counts the releases.
  datatype Barrier = Barrier(sense: bool, count: int, threads: seq<Thread>, epoch: nat)

  function Odd(k: nat): bool { k % 2 == 1 }

  function Initial(n: nat): Barrier
  {
    Barrier(false, 0, seq(n, _ => Thread(Outside, false, 0)), 0)
  }

  // ----- Steps -----

  function Put(b: Barrier, t: nat, th: Thread): Barrier
    requires t < |b.threads|
  {
    b.(threads := b.threads[t := th])
  }

  // The next atomic step of thread t; a thread that waits in vain stays as it is.
  function Next(b: Barrier, t: nat): Barrier
    requires t < |b.threads|
  {
    var th := b.threads[t];
    match th.pc
    case Outside => Put(b, t, th.(pc := Adding, sense := !th.sense))
    case Adding =>
      Put(b.(count := b.count + 1), t, th.(pc := if b.count == |b.threads| - 1 then Resetting else Spinning))
    case Resetting => Put(b.(count := 0), t, th.(pc := Releasing))
    case Releasing => Put(b.(sense := th.sense, epoch := b.epoch + 1), t, Thread(Outside, th.sense, th.left + 1))
    case Spinning => if b.sense == th.sense then Put(b, t, Thread(Outside, th.sense, th.left + 1)) else b
  }

  ghost predicate Run(bs: seq<Barrier>)
  {
    forall i | 0 <= i < |bs| - 1 :: Steps(bs[i], bs[i + 1])
  }

  ghost predicate Steps(b: Barrier, b': Barrier)
  {
    exists t: nat | t < |b.threads| :: b' == Next(b, t)
  }

  // ----- The invariant -----

  function CountArrived(threads: seq<Thread>, epoch: nat): nat
  {
    if threads == [] then 0
    else (if threads[|threads| - 1].Arrived(epoch) then 1 else 0) + CountArrived(threads[..|threads| - 1], epoch)
  }

  predicate ThreadOk(th: Thread, epoch: nat)
  {
    && th.sense == Odd(th.Entered())
    && (th.left == epoch || (th.pc.Spinning? && th.left + 1 == epoch))
  }

  // While one thread resets and releases, all the others wait for it.
  ghost predicate LeaderOk(b: Barrier, r: nat)
    requires r < |b.threads|
  {
    b.threads[r].Leader() ==>
      && b.count == (if b.threads[r].pc.Resetting? then |b.threads| else 0)
      && forall t | 0 <= t < |b.threads| && t != r :: b.threads[t].pc.Spinning? && b.threads[t].left == b.epoch
  }

  ghost predicate NoLeader(b: Barrier)
  {
    forall t | 0 <= t < |b.threads| :: !b.threads[t].Leader()
  }

  ghost predicate Inv(b: Barrier)
  {
    && b.threads != [] && b.sense == Odd(b.epoch)
    && (forall t | 0 <= t < |b.threads| :: ThreadOk(b.threads[t], b.epoch))
    && (forall r: nat | r < |b.threads| :: LeaderOk(b, r))
    && (NoLeader(b) ==> b.count == CountArrived(b.threads, b.epoch) < |b.threads|)
  }

  // ----- Counting the arrived -----

  lemma {:induction false} CountUpdate(threads: seq<Thread>, epoch: nat, t: nat, th: Thread)
    requires t < |threads|
    ensures CountArrived(threads[t := th], epoch) + (if threads[t].Arrived(epoch) then 1 else 0)
         == CountArrived(threads, epoch) + (if th.Arrived(epoch) then 1 else 0)
    decreases |threads|
  {
    var n := |threads| - 1;
    if t < n {
      CountUpdate(threads[..n], epoch, t, th);
      assert threads[t := th][..n] == threads[..n][t := th];
    } else {
      assert threads[t := th][..n] == threads[..n];
    }
  }

  lemma {:induction false} CountBounds(threads: seq<Thread>, epoch: nat)
    ensures CountArrived(threads, epoch) <= |threads|
    ensures CountArrived(threads, epoch) == |threads| <==> forall t | 0 <= t < |threads| :: threads[t].Arrived(epoch)
    ensures CountArrived(threads, epoch) == 0 <==> forall t | 0 <= t < |threads| :: !threads[t].Arrived(epoch)
    decreases |threads|
  {
    if threads != [] {
      var n := |threads| - 1;
      CountBounds(threads[..n], epoch);
      assert forall t | 0 <= t < n :: threads[..n][t] == threads[t];
    }
  }

  // When all but one have been counted, the missing one is the only one missing.
  lemma LastArrives(threads: seq<Thread>, epoch: nat, t: nat)
    requires t < |threads| && !threads[t].Arrived(epoch) && CountArrived(threads, epoch) == |threads| - 1
    ensures forall u | 0 <= u < |threads| && u != t :: threads[u].Arrived(epoch)
  {
    var th := Thread(Spinning, false, epoch);
    CountUpdate(threads, epoch, t, th);
    CountBounds(threads[t := th], epoch);
    forall u | 0 <= u < |threads| && u != t
      ensures threads[u].Arrived(epoch)
    {
      assert threads[t := th][u] == threads[u];
    }
  }

  // ----- Every step keeps the invariant -----

  lemma InitialInv(n: nat)
    requires n > 0
    ensures Inv(Initial(n))
  {
    CountBounds(Initial(n).threads, 0);
  }

  lemma InvKept(b: Barrier, t: nat)
    requires Inv(b) && t < |b.threads|
    ensures Inv(Next(b, t))
  {
    match b.threads[t].pc
    case Outside => EnterKeeps(b, t);
    case Adding => AddKeeps(b, t);
    case Resetting => ResetKeeps(b, t);
    case Releasing => ReleaseKeeps(b, t);
    case Spinning => SpinKeeps(b, t);
  }

  lemma EnterKeeps(b: Barrier, t: nat)
    requires Inv(b) && t < |b.threads| && b.threads[t].pc.Outside?
    ensures Inv(Next(b, t))
  {
    hide CountArrived;
    var b' := Next(b, t);
    assert LeaderOk(b, t);
    CountUpdate(b.threads, b.epoch, t, b'.threads[t]);
    OthersLead(b, b', t);
  }

  // When t takes no part in the release, who leads is unchanged.
  lemma OthersLead(b: Barrier, b': Barrier, t: nat)
    requires Inv(b) && t < |b.threads| == |b'.threads| && b'.threads == b.threads[t := b'.threads[t]]
    requires !b.threads[t].Leader() && !b'.threads[t].Leader()
    requires !(b.threads[t].pc.Spinning? && b.threads[t].left == b.epoch)
    ensures NoLeader(b) && NoLeader(b')
  {
    forall r: nat | r < |b.threads|
      ensures !b.threads[r].Leader() && !b'.threads[r].Leader()
    {
      assert LeaderOk(b, r);
    }
  }

  lemma AddKeeps(b: Barrier, t: nat)
    requires Inv(b) && t < |b.threads| && b.threads[t].pc.Adding?
    ensures Inv(Next(b, t))
  {
    hide CountArrived;
    var b' := Next(b, t);
    forall r: nat | r < |b.threads|
      ensures !b.threads[r].Leader()
    {
      assert LeaderOk(b, r);
    }
    CountUpdate(b.threads, b.epoch, t, b'.threads[t]);
    if b.count == |b.threads| - 1 {
      LastArrives(b.threads, b.epoch, t);
      assert b'.threads[t].Leader();
    } else {
      assert NoLeader(b');
    }
  }

  lemma ResetKeeps(b: Barrier, t: nat)
    requires Inv(b) && t < |b.threads| && b.threads[t].pc.Resetting?
    ensures Inv(Next(b, t))
  {
    var b' := Next(b, t);
    assert LeaderOk(b, t);
    assert b'.threads[t].Leader();
  }

  lemma ReleaseKeeps(b: Barrier, t: nat)
    requires Inv(b) && t < |b.threads| && b.threads[t].pc.Releasing?
    ensures Inv(Next(b, t))
  {
    var b' := Next(b, t);
    assert LeaderOk(b, t);
    CountBounds(b'.threads, b'.epoch);
  }

  lemma SpinKeeps(b: Barrier, t: nat)
    requires Inv(b) && t < |b.threads| && b.threads[t].pc.Spinning?
    ensures Inv(Next(b, t))
  {
    hide CountArrived;
    var b' := Next(b, t);
    if b.sense == b.threads[t].sense {
      assert b.threads[t].left + 1 == b.epoch;
      CountUpdate(b.threads, b.epoch, t, b'.threads[t]);
      OthersLead(b, b', t);
    }
  }

  // ----- What the barrier guarantees -----

  // Nobody leaves barrier k before everybody has entered it, nobody is more than one barrier
  // ahead, and the count stays in range.
  lemma Safety(b: Barrier)
    requires Inv(b)
    ensures forall t, u | 0 <= t < |b.threads| && 0 <= u < |b.threads| ::
              && b.threads[t].left <= b.threads[u].Entered()
              && b.threads[t].left <= b.threads[u].left + 1
    ensures 0 <= b.count <= |b.threads|
  {
    forall t, u | 0 <= t < |b.threads| && 0 <= u < |b.threads|
      ensures b.threads[t].left <= b.threads[u].Entered() && b.threads[t].left <= b.threads[u].left + 1
    {
      assert ThreadOk(b.threads[t], b.epoch) && ThreadOk(b.threads[u], b.epoch);
    }
    if !NoLeader(b) {
      var r :| 0 <= r < |b.threads| && b.threads[r].Leader();
      assert LeaderOk(b, r);
    }
  }

  // The same in every state of every run.
  lemma {:induction false} RunSafety(bs: seq<Barrier>, n: nat, k: nat)
    requires n > 0 && Run(bs) && k < |bs| && bs[0] == Initial(n)
    ensures Inv(bs[k]) && |bs[k].threads| == n
  {
    if k == 0 {
      InitialInv(n);
    } else {
      RunSafety(bs, n, k - 1);
      assert Steps(bs[k - 1], bs[k - 1 + 1]);
      var t: nat :| t < |bs[k - 1].threads| && bs[k] == Next(bs[k - 1], t);
      InvKept(bs[k - 1], t);
    }
  }

  // Thread t is inside and its next step changes something.
  predicate Moves(b: Barrier, t: nat)
    requires t < |b.threads|
  {
    !b.threads[t].pc.Outside? && (b.threads[t].pc.Spinning? ==> b.sense == b.threads[t].sense)
  }

  // With all threads inside, one of them can move.
  lemma NotStuck(b: Barrier)
    requires Inv(b) && forall t | 0 <= t < |b.threads| :: !b.threads[t].pc.Outside?
    ensures exists t: nat | t < |b.threads| :: Moves(b, t)
  {
    if forall t: nat | t < |b.threads| :: !Moves(b, t) {
      forall t: nat | t < |b.threads|
        ensures b.threads[t].Arrived(b.epoch) && !b.threads[t].Leader()
      {
        assert !Moves(b, t) && ThreadOk(b.threads[t], b.epoch);
      }
      CountBounds(b.threads, b.epoch);
      assert NoLeader(b);
    }
  }

  // The steps a thread has in front of it at most.
  function Ahead(threads: seq<Thread>): nat
  {
    if threads == [] then 0 else ThreadAhead(threads[|threads| - 1]) + Ahead(threads[..|threads| - 1])
  }

  function ThreadAhead(th: Thread): nat
  {
    match th.pc case Outside => 0 case Adding => 3 case Resetting => 2 case Releasing => 1 case Spinning => 1
  }

  lemma {:induction false} AheadUpdate(threads: seq<Thread>, t: nat, th: Thread)
    requires t < |threads|
    ensures Ahead(threads[t := th]) + ThreadAhead(threads[t]) == Ahead(threads) + ThreadAhead(th)
    decreases |threads|
  {
    var n := |threads| - 1;
    if t < n {
      AheadUpdate(threads[..n], t, th);
      assert threads[t := th][..n] == threads[..n][t := th];
    } else {
      assert threads[t := th][..n] == threads[..n];
    }
  }

  // Every move brings the threads inside closer to leaving and lets nobody in.
  lemma MoveAdvances(b: Barrier, t: nat)
    requires t < |b.threads| && Moves(b, t)
    ensures Ahead(Next(b, t).threads) < Ahead(b.threads)
    ensures forall u | 0 <= u < |b.threads| :: Next(b, t).threads[u].Entered() == b.threads[u].Entered()
  {
    AheadUpdate(b.threads, t, Next(b, t).threads[t]);
  }

  // If all threads have entered barrier k and none has a move, all have left it.
  lemma Drained(b: Barrier, k: nat)
    requires Inv(b) && forall t | 0 <= t < |b.threads| :: b.threads[t].Entered() == k
    requires forall t: nat | t < |b.threads| :: !Moves(b, t)
    ensures forall t | 0 <= t < |b.threads| :: b.threads[t].pc.Outside? && b.threads[t].left == k
  {
    if exists t :: 0 <= t < |b.threads| && !b.threads[t].pc.Outside? {
      var t :| 0 <= t < |b.threads| && !b.threads[t].pc.Outside?;
      assert !Moves(b, t) && ThreadOk(b.threads[t], b.epoch);
      assert b.epoch + 1 == k;
      forall u: nat | u < |b.threads|
        ensures !b.threads[u].pc.Outside?
      {
        assert ThreadOk(b.threads[u], b.epoch);
      }
      NotStuck(b);
    }
  }

  // Letting threads move in any order, everybody inside for barrier k leaves it within
  // Ahead moves; `moved` lists the threads that moved.
  ghost function AfterMoves(b: Barrier, moved: seq<nat>): Barrier
    requires MovesIn(b, moved)
    decreases |moved|
  {
    if moved == [] then b else AfterMoves(Next(b, moved[0]), moved[1..])
  }

  ghost predicate MovesIn(b: Barrier, moved: seq<nat>)
    decreases |moved|
  {
    moved == [] || (moved[0] < |b.threads| && Moves(b, moved[0]) && MovesIn(Next(b, moved[0]), moved[1..]))
  }

  lemma {:induction false} EverybodyLeaves(b: Barrier, moved: seq<nat>, k: nat)
    requires Inv(b) && MovesIn(b, moved) && forall t | 0 <= t < |b.threads| :: b.threads[t].Entered() == k
    ensures |moved| <= Ahead(b.threads)
    ensures var b' := AfterMoves(b, moved);
            (forall t: nat | t < |b'.threads| :: !Moves(b', t)) ==>
              forall t | 0 <= t < |b'.threads| :: b'.threads[t].pc.Outside? && b'.threads[t].left == k
    decreases |moved|
  {
    if moved == [] {
      if forall t: nat | t < |b.threads| :: !Moves(b, t) {
        Drained(b, k);
      }
    } else {
      InvKept(b, moved[0]);
      MoveAdvances(b, moved[0]);
      EverybodyLeaves(Next(b, moved[0]), moved[1..], k);
    }
  }
}
