/**
 * Notifying without the mutex: what a signal or broadcast does then, and that a broadcast
 * may leave a thread asleep that waited before it began, since it wakes as many threads as
 * it counted, and others may fall asleep between the count and the wake.
 */
module CondNotify {

  import opened Cardinality
  import opened Futex
  import opened CondVar

  predicate Notifying(pc: Pc, op: Op, held: bool) {
    match pc
    case Count(o, h) => o == op && h == held
    case Bump(o, h, _) => o == op && h == held
    case Wake(o, h, _) => o == op && h == held
    case _ => false
  }

  /** Thread j is in the wait in which it captured `seen`. */
  predicate InWait(s: State, j: nat, seen: nat) { j < |s.pcs| && Captured(s.pcs[j]) && s.pcs[j].seen == seen }

  /** How far the notifier is: it has counted somebody, and when it comes to the wake the word has moved on. */
  ghost predicate Underway(s: State, i: nat, op: Op, held: bool, seen: nat) {
    && i < |s.pcs| && Notifying(s.pcs[i], op, held)
    && (s.pcs[i].Bump? ==> s.pcs[i].w > 0)
    && (s.pcs[i].Wake? ==> s.pcs[i].w > 0 && seen < s.bumps)
  }

  /** The wake of thread i between two states: the kernel is asked for one sleeper or for as many as were counted. */
  ghost predicate WakeAt(s: State, s': State, i: nat, op: Op) {
    && i < |s.pcs| && s.pcs[i].Wake? && |s'.pcs| == |s.pcs|
    && exists woken: set<nat> :: Woken(s, s', op, s.pcs[i].w, woken)
  }

  ghost predicate Woken(s: State, s': State, op: Op, w: nat, woken: set<nat>)
    requires |s'.pcs| == |s.pcs|
  {
    && MayWake(Sleepers(s.pcs), woken, if op.Signal? then 1 else w) && w > 0
    && forall j: nat :: j < |s.pcs| && s.pcs[j].Asleep? ==> s'.pcs[j] == if j in woken then Relock(s.pcs[j].seen) else s.pcs[j]
  }

  lemma {:induction false} WaiterCounts(s: State, j: nat, seen: nat)
    requires Inv(s) && InWait(s, j, seen)
    ensures s.waiters > 0 && seen <= s.bumps
  {
    NumWaitingPositive(s.pcs);
  }

  lemma {:induction false} OwnNotifyStep(s: State, s': State, i: nat, op: Op, held: bool, j: nat, seen: nat)
    requires Inv(s) && Underway(s, i, op, held, seen) && InWait(s, j, seen) && ThreadStep(s, s', i)
    ensures i < |s'.pcs|
    ensures Underway(s', i, op, held, seen) || (s'.pcs[i] == Done(op, held) && seen < s'.bumps && WakeAt(s, s', i, op))
  {
    WaiterCounts(s, j, seen);
    if s.pcs[i].Wake? {
      var w := s.pcs[i].w;
      var woken: set<nat> :| MayWake(Sleepers(s.pcs), woken, if op.Signal? then 1 else w)
        && s' == s.(pcs := WakeAll(s.pcs, woken, Roused)[i := Done(op, held)]);
      assert Woken(s, s', op, w, woken);
    }
  }

  lemma {:induction false} OtherNotifyStep(s: State, s': State, k: nat, i: nat, op: Op, held: bool, seen: nat)
    requires Underway(s, i, op, held, seen) && k < |s.pcs| && k != i && ThreadStep(s, s', k)
    ensures Underway(s', i, op, held, seen)
  {
    OthersLeaveBusy(s, s', k, i);
  }

  /**
   * A signal or broadcast, with or without the mutex, that returns while some thread has been
   * waiting all the time: the word has moved on, so that thread cannot fall asleep again, and
   * the kernel has been asked to wake one sleeper, or as many as were counted.
   */
  lemma {:induction false} NotifierActs(run: seq<State>, who: seq<nat>, a: nat, b: nat, i: nat, op: Op, held: bool, j: nat, seen: nat)
    requires IsRun(run) && Follows(run, who) && a < b < |run| && Underway(run[a], i, op, held, seen)
    requires forall k :: a <= k <= b ==> InWait(run[k], j, seen)
    requires forall k :: a <= k < b ==> i < |run[k].pcs| && Notifying(run[k].pcs[i], op, held)
    requires i < |run[b].pcs| && !Notifying(run[b].pcs[i], op, held)
    ensures run[b].pcs[i] == Done(op, held) && seen < run[b].bumps && WakeAt(run[b - 1], run[b], i, op)
    decreases b - a
  {
    RunKeepsInv(run, a);
    assert TakenBy(run, who, a);
    if who[a] == i {
      OwnNotifyStep(run[a], run[a + 1], i, op, held, j, seen);
    } else {
      OtherNotifyStep(run[a], run[a + 1], who[a], i, op, held, seen);
    }
    if a + 1 < b {
      NotifierActs(run, who, a + 1, b, i, op, held, j, seen);
    }
  }

  /** Such a wake gets at least one of the sleepers, if there is one, and all of them if they are no more than were counted. */
  lemma {:induction false} WakeGets(s: State, s': State, i: nat, op: Op)
    requires WakeAt(s, s', i, op)
    ensures Sleepers(s.pcs) != {} ==> exists j :: j in Sleepers(s.pcs) && j < |s'.pcs| && s'.pcs[j].Relock?
    ensures op.Broadcast? && |Sleepers(s.pcs)| <= s.pcs[i].w ==>
              forall j: nat :: j < |s.pcs| && s.pcs[j].Asleep? ==> s'.pcs[j].Relock?
  {
    var woken: set<nat> :| Woken(s, s', op, s.pcs[i].w, woken);
    if Sleepers(s.pcs) != {} {
      assert woken != {};
      var j :| j in woken;
      assert j in Sleepers(s.pcs) && s'.pcs[j].Relock?;
    }
    if op.Broadcast? && |Sleepers(s.pcs)| <= s.pcs[i].w {
      OnlyAll(Sleepers(s.pcs), s.pcs[i].w, woken);
    }
  }

  lemma {:induction false} OnlyAll(sleepers: set<nat>, n: nat, woken: set<nat>)
    requires MayWake(sleepers, woken, n) && |sleepers| <= n
    ensures woken == sleepers
  {
    if woken < sleepers {
      SubsetSmaller(woken, sleepers);
    }
  }

  /** A wake of n threads is bound to get all the sleepers exactly when they are no more than n. */
  lemma {:induction false} WakeIsCompleteExactly(sleepers: set<nat>, n: nat)
    ensures (forall woken: set<nat> :: MayWake(sleepers, woken, n) ==> woken == sleepers) <==> |sleepers| <= n
  {
    if |sleepers| <= n {
      forall woken: set<nat> | MayWake(sleepers, woken, n)
        ensures woken == sleepers
      {
        OnlyAll(sleepers, n, woken);
      }
    } else {
      var some := SubsetOf(sleepers, n);
      assert MayWake(sleepers, some, n);
    }
  }

  lemma {:induction false} SubsetOf(s: set<nat>, n: nat) returns (r: set<nat>)
    requires n <= |s|
    ensures r <= s && |r| == n
    decreases |s|
  {
    if n == |s| {
      r := s;
    } else {
      var x :| x in s;
      r := SubsetOf(s - {x}, n);
    }
  }

  // ---------------------------------------------------------------- a broadcast that leaves a waiter asleep

  ghost predicate EndsIn(run: seq<State>, s: State) { IsRun(run) && run[|run| - 1] == s }

  lemma {:induction false} Extend(run: seq<State>, s: State, s': State, i: nat) returns (r: seq<State>)
    requires EndsIn(run, s) && i < |s.pcs| && ThreadStep(s, s', i) && NoWrap(s')
    ensures EndsIn(r, s') && run <= r
  {
    r := run + [s'];
    forall k: nat
      ensures StepAt(r, k)
    {
      assert StepAt(run, k);
    }
  }

  /** Two waiters and a notifier. */
  function Trio(mutex: nat, waiters: int, bumps: nat, a: Pc, b: Pc, c: Pc, holder: int): State {
    State(mutex, waiters, bumps, [a, b, c], holder)
  }

  /** s with thread t at pc and the mutex and the waiter count as given. */
  function At(s: State, t: nat, pc: Pc, locked: bool, waiters: int): State
    requires t < |s.pcs|
  {
    State(if locked then 1 else 0, waiters, s.bumps, s.pcs[t := pc], if locked then t else -1)
  }

  lemma {:induction false} Lock(s: State, t: nat, n: int)
    requires t < |s.pcs|
    ensures ThreadStep(At(s, t, Out, false, n), At(s, t, In, true, n), t)
    ensures ThreadStep(At(s, t, In, true, n), At(s, t, Enter(false), true, n), t)
  {
    var s1 := At(s, t, In, true, n);
    assert s1.pcs[t := Enter(false)] == s.pcs[t := Enter(false)];
    assert At(s, t, Enter(false), true, n) == To(s1, t, Enter(false));
  }

  lemma {:induction false} Wait(s: State, t: nat, n: int)
    requires t < |s.pcs| && s.bumps == 0
    ensures ThreadStep(At(s, t, Enter(false), true, n), At(s, t, Load(false), true, n + 1), t)
    ensures ThreadStep(At(s, t, Load(false), true, n), At(s, t, Drop(0, false), true, n), t)
    ensures ThreadStep(At(s, t, Drop(0, false), true, n), At(s, t, Dropped(0, false), false, n), t)
  {
  }

  lemma {:induction false} FallAsleep(s: State, t: nat, n: int)
    requires t < |s.pcs| && s.bumps == 0
    ensures ThreadStep(At(s, t, Dropped(0, false), false, n), At(s, t, Sleep(0), false, n), t)
    ensures ThreadStep(At(s, t, Sleep(0), false, n), At(s, t, Asleep(0), false, n), t)
  {
  }

  /** A thread outside goes through the wait until it sleeps. */
  lemma {:induction false} GoesToSleep(run: seq<State>, s: State, t: nat, n: int) returns (r: seq<State>)
    requires t < |s.pcs| && s.bumps == 0 && EndsIn(run, At(s, t, Out, false, n))
    ensures EndsIn(r, At(s, t, Asleep(0), false, n + 1)) && run <= r
  {
    Lock(s, t, n);
    r := Extend(run, At(s, t, Out, false, n), At(s, t, In, true, n), t);
    r := Extend(r, At(s, t, In, true, n), At(s, t, Enter(false), true, n), t);
    r := GoesOn(r, s, t, n);
  }

  lemma {:induction false} GoesOn(run: seq<State>, s: State, t: nat, n: int) returns (r: seq<State>)
    requires t < |s.pcs| && s.bumps == 0 && EndsIn(run, At(s, t, Enter(false), true, n))
    ensures EndsIn(r, At(s, t, Asleep(0), false, n + 1)) && run <= r
  {
    Wait(s, t, n);
    Wait(s, t, n + 1);
    FallAsleep(s, t, n + 1);
    r := Extend(run, At(s, t, Enter(false), true, n), At(s, t, Load(false), true, n + 1), t);
    r := Extend(r, At(s, t, Load(false), true, n + 1), At(s, t, Drop(0, false), true, n + 1), t);
    r := Extend(r, At(s, t, Drop(0, false), true, n + 1), At(s, t, Dropped(0, false), false, n + 1), t);
    r := Extend(r, At(s, t, Dropped(0, false), false, n + 1), At(s, t, Sleep(0), false, n + 1), t);
    r := Extend(r, At(s, t, Sleep(0), false, n + 1), At(s, t, Asleep(0), false, n + 1), t);
  }

  /** Thread 2 begins a broadcast without the mutex and counts one waiter. */
  lemma {:induction false} NotifierCounts(run: seq<State>) returns (r: seq<State>, a: nat)
    requires EndsIn(run, Trio(0, 1, 0, Asleep(0), Out, Out, -1))
    ensures EndsIn(r, Trio(0, 1, 0, Asleep(0), Out, Bump(Broadcast, false, 1), -1))
    ensures a < |r| && r[a].pcs == [Asleep(0), Out, Count(Broadcast, false)]
  {
    var s0 := Trio(0, 1, 0, Asleep(0), Out, Out, -1);
    var s1 := Trio(0, 1, 0, Asleep(0), Out, Count(Broadcast, false), -1);
    assert s1 == To(s0, 2, Count(Broadcast, false));
    r := Extend(run, s0, s1, 2);
    a := |r| - 1;
    r := Extend(r, s1, Trio(0, 1, 0, Asleep(0), Out, Bump(Broadcast, false, 1), -1), 2);
  }

  /** It moves the word on, and wakes thread 1 alone. */
  lemma {:induction false} NotifierWakes(run: seq<State>) returns (r: seq<State>)
    requires EndsIn(run, Trio(0, 2, 0, Asleep(0), Asleep(0), Bump(Broadcast, false, 1), -1))
    ensures EndsIn(r, Trio(0, 2, 1, Asleep(0), Relock(0), Done(Broadcast, false), -1)) && run <= r
  {
    var s0 := Trio(0, 2, 0, Asleep(0), Asleep(0), Bump(Broadcast, false, 1), -1);
    var s1 := Trio(0, 2, 1, Asleep(0), Asleep(0), Wake(Broadcast, false, 1), -1);
    var s2 := Trio(0, 2, 1, Asleep(0), Relock(0), Done(Broadcast, false), -1);
    r := Extend(run, s0, s1, 2);
    assert MayWake(Sleepers(s1.pcs), {1}, 1);
    assert WakeAll(s1.pcs, {1}, Roused)[2 := Done(Broadcast, false)] == s2.pcs;
    r := Extend(r, s1, s2, 2);
  }

  /**
   * A broadcast without the mutex that returns and leaves asleep a thread that slept before
   * it began; its one wake went to a thread that came later.
   */
  lemma {:induction false} BroadcastLeavesOneAsleep() returns (run: seq<State>, a: nat)
    ensures IsRun(run) && a < |run|
    ensures run[a].pcs == [Asleep(0), Out, Count(Broadcast, false)]
    ensures run[|run| - 1].pcs == [Asleep(0), Relock(0), Done(Broadcast, false)] && run[|run| - 1].bumps == 1
  {
    var s := Trio(0, 0, 0, Out, Out, Out, -1);
    run := [s];
    assert s.pcs[0 := Out] == s.pcs && s.pcs[0 := Asleep(0)] == [Asleep(0), Out, Out];
    run := GoesToSleep(run, s, 0, 0);
    run, a := NotifierCounts(run);
    s := Trio(0, 1, 0, Asleep(0), Out, Bump(Broadcast, false, 1), -1);
    assert s.pcs[1 := Out] == s.pcs && s.pcs[1 := Asleep(0)] == [Asleep(0), Asleep(0), Bump(Broadcast, false, 1)];
    run := GoesToSleep(run, s, 1, 1);
    run := NotifierWakes(run);
  }
}
