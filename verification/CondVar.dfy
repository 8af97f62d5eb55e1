/**
 * pthread_cond_wait, timedwait, signal and broadcast as a step system over one condition
 * variable and the mutex its waiters use. Every atomic access to `waiters`, to the
 * condition's futex word and to the mutex word, and every futex call, is one step of one
 * of any number of threads.
 *
 * `bumps` counts the fetch-adds on the condition's futex word, so the 32-bit word itself
 * is Word(bumps). A waiter's `seen` is the value of `bumps` when it loaded the word: the
 * C local `old` is Word(seen). `held` records whether a notifier called with the mutex held.
 * The mutex appears here as its futex word alone; its other fields are in module Mutex.
 */
module CondVar {

  import opened Cardinality
  import opened Futex
  import opened Schedule

  datatype Op = Signal | Broadcast

  /** The next step of a thread. */
  datatype Pc =
    | Out                                  // does not hold the mutex
    | In                                   // holds the mutex
    | Enter(timed: bool)                   // fetch-add waiters
    | Load(timed: bool)                    // load the futex word
    | Drop(seen: nat, timed: bool)         // unlock: store mutex word = 0
    | Dropped(seen: nat, timed: bool)      // unlock: wake one thread waiting for the mutex
    | Sleep(seen: nat)                     // futex wait on the captured word
    | Asleep(seen: nat)                    // inside futex wait
    | Poll(seen: nat)                      // futex wait failed: load the word until it differs
    | TimedPoll(seen: nat)                 // timedwait: load the word until it differs or time is up
    | Relock(seen: nat)                    // compare-and-swap the mutex word
    | Leave(seen: nat)                     // fetch-sub waiters
    | Count(op: Op, held: bool)            // notifier: load waiters
    | Bump(op: Op, held: bool, w: nat)     // fetch-add the futex word
    | Wake(op: Op, held: bool, w: nat)     // futex wake
    | Done(op: Op, held: bool)             // return

  datatype State = State(
    mutex: nat,
    waiters: int,
    bumps: nat,
    pcs: seq<Pc>,
    holder: int)             // history: the thread that owns the mutex word, or -1

  ghost predicate Init(s: State) {
    && s.mutex == 0 && s.waiters == 0 && s.bumps == 0 && s.holder == -1
    && forall i :: 0 <= i < |s.pcs| ==> s.pcs[i] == Out
  }

  predicate Holds(pc: Pc) {
    match pc
    case In => true
    case Enter(_) => true
    case Load(_) => true
    case Drop(_, _) => true
    case Leave(_) => true
    case Count(_, held) => held
    case Bump(_, held, _) => held
    case Wake(_, held, _) => held
    case Done(_, held) => held
    case _ => false
  }

  /** Between the fetch-add and the fetch-sub of `waiters`. */
  predicate Waiting(pc: Pc) { pc.Load? || Captured(pc) }

  /** A waiter that has loaded the futex word. */
  predicate Captured(pc: Pc) {
    pc.Drop? || pc.Dropped? || pc.Sleep? || pc.Asleep? || pc.Poll? || pc.TimedPoll? || pc.Relock? || pc.Leave?
  }

  function Sleepers(pcs: seq<Pc>): set<nat> {
    set i: nat | i < |pcs| && pcs[i].Asleep?
  }

  function Roused(pc: Pc): Pc { if pc.Asleep? then Relock(pc.seen) else pc }

  function To(s: State, i: nat, pc: Pc): State
    requires i < |s.pcs|
  {
    s.(pcs := s.pcs[i := pc])
  }

  /** Compare-and-swap of the mutex word: success leads to pc, failure tries again. */
  ghost predicate CasMutex(s: State, s': State, i: nat, pc: Pc)
    requires i < |s.pcs|
  {
    s' == s || (s.mutex == 0 && s' == To(s, i, pc).(mutex := 1, holder := i))
  }

  /** The steps of a waiter. */
  ghost predicate WaiterStep(s: State, s': State, i: nat)
    requires i < |s.pcs| && (s.pcs[i].Enter? || Waiting(s.pcs[i]))
  {
    match s.pcs[i]
    case Enter(timed) => s' == To(s, i, Load(timed)).(waiters := s.waiters + 1)
    case Load(timed) => s' == To(s, i, Drop(s.bumps, timed))
    case Drop(seen, timed) => s' == To(s, i, Dropped(seen, timed)).(mutex := 0, holder := -1)
    case Dropped(seen, timed) => s' == To(s, i, if timed then TimedPoll(seen) else Sleep(seen))
    case Sleep(seen) => s' == To(s, i, if Word(s.bumps) == Word(seen) then Asleep(seen) else Poll(seen))
    case Asleep(seen) => s' == To(s, i, Relock(seen)) || s' == To(s, i, Poll(seen))
    case Poll(seen) => s' == To(s, i, if Word(s.bumps) == Word(seen) then Poll(seen) else Relock(seen))
    case TimedPoll(seen) =>
      || s' == To(s, i, if Word(s.bumps) == Word(seen) then TimedPoll(seen) else Relock(seen))
      || s' == To(s, i, Relock(seen))
    case Relock(seen) => CasMutex(s, s', i, Leave(seen))
    case Leave(seen) => s' == To(s, i, In).(waiters := s.waiters - 1)
  }

  /** The steps of a thread that is not waiting. */
  ghost predicate OtherStep(s: State, s': State, i: nat)
    requires i < |s.pcs| && !s.pcs[i].Enter? && !Waiting(s.pcs[i])
  {
    match s.pcs[i]
    case Out => CasMutex(s, s', i, In) || exists op: Op :: s' == To(s, i, Count(op, false))
    case In =>
      || s' == To(s, i, Out).(mutex := 0, holder := -1)
      || (exists timed: bool :: s' == To(s, i, Enter(timed)))
      || (exists op: Op :: s' == To(s, i, Count(op, true)))
    case Count(op, held) =>
      s' == To(s, i, if s.waiters > 0 then Bump(op, held, s.waiters) else Done(op, held))
    case Bump(op, held, w) => s' == To(s, i, Wake(op, held, w)).(bumps := s.bumps + 1)
    case Wake(op, held, w) =>
      exists woken: set<nat> :: MayWake(Sleepers(s.pcs), woken, if op.Signal? then 1 else w)
        && s' == s.(pcs := WakeAll(s.pcs, woken, Roused)[i := Done(op, held)])
    case Done(op, held) => s' == To(s, i, if held then In else Out)
  }

  ghost predicate ThreadStep(s: State, s': State, i: nat)
    requires i < |s.pcs|
  {
    if s.pcs[i].Enter? || Waiting(s.pcs[i]) then WaiterStep(s, s', i) else OtherStep(s, s', i)
  }

  ghost predicate Step(s: State, s': State) {
    exists i: nat :: i < |s.pcs| && ThreadStep(s, s', i)
  }

  /** Fewer than 2^32 notifications happen during one wait. */
  ghost predicate NoWrap(s: State) {
    forall i: nat :: i < |s.pcs| && Captured(s.pcs[i]) ==> s.bumps < s.pcs[i].seen + WORD
  }

  /** The k-th step of a run, if it has one. */
  ghost predicate StepAt(run: seq<State>, k: nat) {
    k + 1 < |run| ==> Step(run[k], run[k + 1])
  }

  ghost predicate IsRun(run: seq<State>) {
    && |run| > 0
    && Init(run[0])
    && (forall k: nat :: StepAt(run, k))
    && (forall k :: 0 <= k < |run| ==> NoWrap(run[k]))
  }

  // ---------------------------------------------------------------- counting waiters

  function NumWaiting(pcs: seq<Pc>): (n: nat)
  {
    if pcs == [] then 0
    else NumWaiting(pcs[..|pcs| - 1]) + if Waiting(pcs[|pcs| - 1]) then 1 else 0
  }

  lemma {:induction false} NumWaitingUpdate(pcs: seq<Pc>, i: nat, pc: Pc)
    requires i < |pcs|
    ensures NumWaiting(pcs[i := pc])
         == NumWaiting(pcs) - (if Waiting(pcs[i]) then 1 else 0) + (if Waiting(pc) then 1 else 0)
  {
    var n := |pcs| - 1;
    if i == n {
      assert pcs[i := pc][..n] == pcs[..n];
    } else {
      assert pcs[i := pc][..n] == pcs[..n][i := pc];
      NumWaitingUpdate(pcs[..n], i, pc);
    }
  }

  lemma {:induction false} NumWaitingSame(pcs: seq<Pc>, qcs: seq<Pc>)
    requires |pcs| == |qcs|
    requires forall i: nat :: i < |pcs| ==> Waiting(pcs[i]) == Waiting(qcs[i])
    ensures NumWaiting(pcs) == NumWaiting(qcs)
  {
    if pcs != [] {
      NumWaitingSame(pcs[..|pcs| - 1], qcs[..|qcs| - 1]);
    }
  }

  lemma {:induction false} NumWaitingPositive(pcs: seq<Pc>)
    ensures NumWaiting(pcs) > 0 <==> exists i: nat :: i < |pcs| && Waiting(pcs[i])
  {
    if pcs != [] {
      var n := |pcs| - 1;
      NumWaitingPositive(pcs[..n]);
      if i: nat :| i < |pcs| && Waiting(pcs[i]) {
        assert i < n ==> Waiting(pcs[..n][i]);
      }
    }
  }

  /** Every sleeper has been counted in `waiters`. */
  lemma {:induction false} SleepersAreWaiting(pcs: seq<Pc>)
    ensures |Sleepers(pcs)| <= NumWaiting(pcs)
  {
    if pcs != [] {
      var n := |pcs| - 1;
      SleepersAreWaiting(pcs[..n]);
      if pcs[n].Asleep? {
        assert Sleepers(pcs) == Sleepers(pcs[..n]) + {n};
      } else {
        assert Sleepers(pcs) == Sleepers(pcs[..n]);
      }
    } else {
      assert Sleepers(pcs) == {};
    }
  }

  // ---------------------------------------------------------------- the invariant

  ghost predicate Owned(s: State) {
    && -1 <= s.holder < |s.pcs|
    && s.mutex == (if s.holder >= 0 then 1 else 0)
    && forall i: nat :: i < |s.pcs| ==> (Holds(s.pcs[i]) <==> i == s.holder)
  }

  ghost predicate Counted(s: State) {
    && s.waiters == NumWaiting(s.pcs)
    && forall i: nat :: i < |s.pcs| && Captured(s.pcs[i]) ==> s.pcs[i].seen <= s.bumps
  }

  /** Every waiter captured a word that has since been bumped. */
  ghost predicate AllStale(s: State) {
    forall i: nat :: i < |s.pcs| && Waiting(s.pcs[i]) ==> Captured(s.pcs[i]) && s.pcs[i].seen < s.bumps
  }

  ghost predicate NobodyAsleep(s: State) {
    forall i: nat :: i < |s.pcs| ==> !s.pcs[i].Asleep?
  }

  ghost predicate SomeWaiterAwake(s: State) {
    exists i: nat :: i < |s.pcs| && Waiting(s.pcs[i]) && !s.pcs[i].Asleep?
  }

  /** How far the notification of a mutex holder has got. */
  ghost predicate Notified(s: State, pc: Pc) {
    match pc
    case Bump(_, true, w) => w == s.waiters
    case Wake(_, true, w) => w == s.waiters && AllStale(s)
    case Done(Broadcast, true) => AllStale(s) && NobodyAsleep(s)
    case Done(Signal, true) => AllStale(s) && (s.waiters > 0 ==> SomeWaiterAwake(s))
    case _ => true
  }

  ghost predicate Inv(s: State) {
    && Owned(s)
    && Counted(s)
    && (s.holder >= 0 ==> Notified(s, s.pcs[s.holder]))
  }

  lemma InitEstablishesInv(s: State)
    requires Init(s)
    ensures Inv(s)
  {
    NumWaitingPositive(s.pcs);
  }

  /** A thread keeps its place in the wait, its captured value and its hold, and does not fall asleep. */
  predicate SamePlace(pc: Pc, pc': Pc) {
    && Holds(pc) == Holds(pc')
    && Waiting(pc) == Waiting(pc')
    && Captured(pc) == Captured(pc')
    && (Captured(pc) ==> pc'.seen == pc.seen)
    && (pc'.Asleep? ==> pc.Asleep?)
  }

  /** Whatever threads without the mutex do, the holder's notification stands. */
  lemma {:induction false} DriftKeepsInv(s: State, s': State)
    requires Inv(s)
    requires |s'.pcs| == |s.pcs| && s'.holder == s.holder && s'.mutex == s.mutex
    requires s'.waiters == s.waiters && s'.bumps >= s.bumps
    requires forall j: nat :: j < |s.pcs| ==> SamePlace(s.pcs[j], s'.pcs[j])
    requires s.holder >= 0 ==> s'.pcs[s.holder] == s.pcs[s.holder]
    ensures Inv(s')
  {
    NumWaitingSame(s.pcs, s'.pcs);
    if s.holder >= 0 && s.waiters > 0 && s.pcs[s.holder] == Done(Signal, true) {
      var k: nat :| k < |s.pcs| && Waiting(s.pcs[k]) && !s.pcs[k].Asleep?;
      assert Waiting(s'.pcs[k]) && !s'.pcs[k].Asleep?;
    }
  }

  /** A thread falls asleep on its captured value: then no notification of the holder is complete. */
  lemma {:induction false} FallAsleepKeepsInv(s: State, i: nat)
    requires Inv(s) && NoWrap(s) && i < |s.pcs| && s.pcs[i].Sleep?
    requires Word(s.bumps) == Word(s.pcs[i].seen)
    ensures Inv(To(s, i, Asleep(s.pcs[i].seen)))
  {
    var s' := To(s, i, Asleep(s.pcs[i].seen));
    SameWord(s.pcs[i].seen, s.bumps);
    assert !AllStale(s);
    NumWaitingUpdate(s.pcs, i, s'.pcs[i]);
  }

  lemma SameWord(m: nat, n: nat)
    requires m <= n < m + WORD
    ensures Word(m) == Word(n) <==> m == n
  {
  }

  /** The holder, or the thread that becomes the holder, moves outside a notification. */
  lemma {:induction false} HolderMoveKeepsInv(s: State, s': State, i: nat)
    requires Owned(s) && Counted(s) && i < |s.pcs|
    requires |s'.pcs| == |s.pcs| && s'.pcs == s.pcs[i := s'.pcs[i]] && s'.bumps == s.bumps
    requires s.holder in {-1, i as int}
    requires s'.holder == if Holds(s'.pcs[i]) then i else -1
    requires s'.mutex == if Holds(s'.pcs[i]) then 1 else 0
    requires s'.waiters == s.waiters - (if Waiting(s.pcs[i]) then 1 else 0) + (if Waiting(s'.pcs[i]) then 1 else 0)
    requires Captured(s'.pcs[i]) ==> s'.pcs[i].seen <= s.bumps
    requires s'.holder >= 0 ==> Notified(s', s'.pcs[i])
    ensures Inv(s')
  {
    NumWaitingUpdate(s.pcs, i, s'.pcs[i]);
  }

  lemma {:induction false} WaiterStepKeepsInv(s: State, s': State, i: nat)
    requires Inv(s) && NoWrap(s) && i < |s.pcs|
    requires (s.pcs[i].Enter? || Waiting(s.pcs[i])) && WaiterStep(s, s', i)
    ensures Inv(s')
  {
    var pc := s.pcs[i];
    assert Holds(pc) <==> i == s.holder;
    if pc.Enter? || pc.Load? || pc.Drop? || pc.Leave? || (pc.Relock? && s' != s) {
      HolderMoveKeepsInv(s, s', i);
    } else if pc.Sleep? && Word(s.bumps) == Word(pc.seen) {
      FallAsleepKeepsInv(s, i);
    } else {
      DriftKeepsInv(s, s');
    }
  }

  /** The holder's fetch-add makes every captured value stale. */
  lemma {:induction false} BumpMakesAllStale(s: State, i: nat, op: Op, w: nat)
    requires Inv(s) && i < |s.pcs| && s.pcs[i] == Bump(op, true, w)
    ensures Inv(To(s, i, Wake(op, true, w)).(bumps := s.bumps + 1))
  {
    var s' := To(s, i, Wake(op, true, w)).(bumps := s.bumps + 1);
    assert Holds(s.pcs[i]);
    NumWaitingUpdate(s.pcs, i, s'.pcs[i]);
    forall j: nat | j < |s'.pcs| && Waiting(s'.pcs[j])
      ensures Captured(s'.pcs[j]) && s'.pcs[j].seen < s'.bumps
    {
      assert j != s.holder ==> !Holds(s.pcs[j]);
    }
  }

  /** A holder's wake of as many threads as wait reaches every sleeper. */
  lemma {:induction false} BroadcastWakesAll(s: State, woken: set<nat>)
    requires Inv(s) && s.waiters >= 0 && MayWake(Sleepers(s.pcs), woken, s.waiters)
    ensures woken == Sleepers(s.pcs)
  {
    SleepersAreWaiting(s.pcs);
    if woken != Sleepers(s.pcs) {
      SubsetSmaller(woken, Sleepers(s.pcs));
    }
  }

  lemma {:induction false} RouseSamePlace(pcs: seq<Pc>, woken: set<nat>, i: nat, pc: Pc)
    requires i < |pcs| && SamePlace(pcs[i], pc)
    ensures forall j: nat :: j < |pcs| ==> SamePlace(pcs[j], WakeAll(pcs, woken, Roused)[i := pc][j])
  {
  }

  /** Waking one sleeper, or having none to wake, leaves some waiter awake. */
  lemma {:induction false} SignalWakesOne(s: State, woken: set<nat>, i: nat)
    requires Inv(s) && s.waiters > 0 && MayWake(Sleepers(s.pcs), woken, 1)
    requires i < |s.pcs| && s.pcs[i].Wake?
    ensures SomeWaiterAwake(s.(pcs := WakeAll(s.pcs, woken, Roused)[i := Done(Signal, true)]))
  {
    var s' := s.(pcs := WakeAll(s.pcs, woken, Roused)[i := Done(Signal, true)]);
    if woken == {} {
      NumWaitingPositive(s.pcs);
      var k: nat :| k < |s.pcs| && Waiting(s.pcs[k]);
      assert k !in Sleepers(s.pcs);
      assert Waiting(s'.pcs[k]) && !s'.pcs[k].Asleep?;
    } else {
      var k :| k in woken;
      assert s'.pcs[k] == Roused(s.pcs[k]);
      assert Waiting(s'.pcs[k]) && !s'.pcs[k].Asleep?;
    }
  }

  lemma {:induction false} HolderWakeKeepsInv(s: State, i: nat, op: Op, w: nat, woken: set<nat>)
    requires Inv(s) && i < |s.pcs| && s.pcs[i] == Wake(op, true, w)
    requires MayWake(Sleepers(s.pcs), woken, if op.Signal? then 1 else w)
    ensures Inv(s.(pcs := WakeAll(s.pcs, woken, Roused)[i := Done(op, true)]))
  {
    var s' := s.(pcs := WakeAll(s.pcs, woken, Roused)[i := Done(op, true)]);
    assert Holds(s.pcs[i]) && i == s.holder;
    RouseSamePlace(s.pcs, woken, i, Done(op, true));
    NumWaitingSame(s.pcs, s'.pcs);
    if op.Broadcast? {
      BroadcastWakesAll(s, woken);
    } else if s.waiters > 0 {
      SignalWakesOne(s, woken, i);
    }
  }

  lemma {:induction false} NotifyStepKeepsInv(s: State, s': State, i: nat)
    requires Inv(s) && i < |s.pcs| && (s.pcs[i].Bump? || s.pcs[i].Wake?) && OtherStep(s, s', i)
    ensures Inv(s')
  {
    match s.pcs[i]
    case Bump(op, held, w) =>
      if held { BumpMakesAllStale(s, i, op, w); } else { DriftKeepsInv(s, s'); }
    case Wake(op, held, w) =>
      var woken: set<nat> :| MayWake(Sleepers(s.pcs), woken, if op.Signal? then 1 else w)
        && s' == s.(pcs := WakeAll(s.pcs, woken, Roused)[i := Done(op, held)]);
      if held {
        HolderWakeKeepsInv(s, i, op, w, woken);
      } else {
        RouseSamePlace(s.pcs, woken, i, Done(op, held));
        DriftKeepsInv(s, s');
      }
  }

  lemma {:induction false} PlainStepKeepsInv(s: State, s': State, i: nat)
    requires Inv(s) && i < |s.pcs| && !s.pcs[i].Enter? && !Waiting(s.pcs[i]) && OtherStep(s, s', i)
    requires !s.pcs[i].Bump? && !s.pcs[i].Wake?
    ensures Inv(s')
  {
    var pc := s.pcs[i];
    assert Holds(pc) <==> i == s.holder;
    if (pc.Out? && s' != s && !s'.pcs[i].Count?) || Holds(pc) {
      NumWaitingPositive(s.pcs);
      HolderMoveKeepsInv(s, s', i);
    } else {
      DriftKeepsInv(s, s');
    }
  }

  lemma {:induction false} StepKeepsInv(s: State, s': State)
    requires Inv(s) && NoWrap(s) && Step(s, s')
    ensures Inv(s')
  {
    var i: nat :| i < |s.pcs| && ThreadStep(s, s', i);
    if s.pcs[i].Enter? || Waiting(s.pcs[i]) {
      WaiterStepKeepsInv(s, s', i);
    } else if s.pcs[i].Bump? || s.pcs[i].Wake? {
      NotifyStepKeepsInv(s, s', i);
    } else {
      PlainStepKeepsInv(s, s', i);
    }
  }

  lemma {:induction false} RunKeepsInv(run: seq<State>, n: nat)
    requires IsRun(run) && n < |run|
    ensures Inv(run[n])
  {
    if n == 0 {
      InitEstablishesInv(run[0]);
    } else {
      RunKeepsInv(run, n - 1);
      assert StepAt(run, n - 1);
      StepKeepsInv(run[n - 1], run[n]);
    }
  }

  // ---------------------------------------------------------------- the theorems

  /** A waiter that is not asleep and cannot fall asleep on the word it captured. */
  ghost predicate Released(s: State, pc: Pc) {
    && Captured(pc) && !pc.Asleep?
    && pc.seen < s.bumps
    && Word(pc.seen) != Word(s.bumps)
  }

  /**
   * When a broadcast made with the mutex held reaches its return, every thread that has
   * entered the wait has captured a word that differs from the current one, and none sleeps.
   */
  lemma {:induction false} BroadcastReachesAll(run: seq<State>, n: nat, b: nat, i: nat)
    requires IsRun(run) && n < |run| && b < |run[n].pcs| && i < |run[n].pcs|
    requires run[n].pcs[b] == Done(Broadcast, true)
    requires Waiting(run[n].pcs[i])
    ensures Released(run[n], run[n].pcs[i])
  {
    RunKeepsInv(run, n);
    var s := run[n];
    assert Holds(s.pcs[b]) && b == s.holder;
    assert NoWrap(s);
    SameWord(s.pcs[i].seen, s.bumps);
  }

  /** A signal made with the mutex held leaves at least one of the threads that waited awake. */
  lemma {:induction false} SignalReachesOne(run: seq<State>, n: nat, b: nat, i: nat)
    requires IsRun(run) && n < |run| && b < |run[n].pcs| && i < |run[n].pcs|
    requires run[n].pcs[b] == Done(Signal, true)
    requires Waiting(run[n].pcs[i])
    ensures exists j: nat :: j < |run[n].pcs| && Released(run[n], run[n].pcs[j])
  {
    RunKeepsInv(run, n);
    var s := run[n];
    assert Holds(s.pcs[b]) && b == s.holder;
    NumWaitingPositive(s.pcs);
    var j: nat :| j < |s.pcs| && Waiting(s.pcs[j]) && !s.pcs[j].Asleep?;
    assert NoWrap(s);
    SameWord(s.pcs[j].seen, s.bumps);
    assert Released(s, s.pcs[j]);
  }

  /** A waiter that a notification still has to reach. */
  ghost predicate Pending(s: State, j: nat) {
    j < |s.pcs| && Captured(s.pcs[j]) && !Released(s, s.pcs[j])
  }

  /** In a signal made with the mutex held. */
  predicate Signalling(pc: Pc) {
    (pc.Count? || pc.Bump? || pc.Wake? || pc.Done?) && pc.op == Signal && pc.held
  }

  /** A waiter keeps waiting with the word it captured, and nobody else starts to. */
  predicate SameCapture(pc: Pc, pc': Pc) {
    Captured(pc) == Captured(pc') && (Captured(pc) ==> pc'.seen == pc.seen)
  }

  ghost predicate SomePendingAwake(s0: State, s: State) {
    exists j: nat :: Pending(s0, j) && j < |s.pcs| && !s.pcs[j].Asleep?
  }

  /** While b's signal is under way since s0: the waiters stay, and only those still to be reached sleep. */
  ghost predicate During(s0: State, s: State, b: nat) {
    && |s.pcs| == |s0.pcs| && b < |s.pcs| && Signalling(s.pcs[b]) && s0.bumps <= s.bumps
    && (forall j: nat :: j < |s.pcs| ==> SameCapture(s0.pcs[j], s.pcs[j]))
    && (forall j: nat :: j < |s.pcs| && s.pcs[j].Asleep? ==> Pending(s0, j))
    && (s.pcs[b].Done? ==> SomePendingAwake(s0, s))
  }

  /** The signaller's wake reaches a sleeper that was to be reached, or finds all of those awake. */
  lemma {:induction false} DuringWake(s0: State, s: State, b: nat, i: nat, woken: set<nat>)
    requires During(s0, s, b) && Pending(s0, i) && s.pcs[b].Wake? && MayWake(Sleepers(s.pcs), woken, 1)
    ensures During(s0, s.(pcs := WakeAll(s.pcs, woken, Roused)[b := Done(Signal, true)]), b)
  {
    var s' := s.(pcs := WakeAll(s.pcs, woken, Roused)[b := Done(Signal, true)]);
    assert SameCapture(s0.pcs[i], s.pcs[i]);
    if k :| k in woken {
      assert Pending(s0, k) && !s'.pcs[k].Asleep?;
    } else {
      assert i !in Sleepers(s.pcs);
      assert !s'.pcs[i].Asleep?;
    }
  }

  /** The signaller's own step. */
  lemma {:induction false} DuringOwnStep(s0: State, s: State, s': State, b: nat, i: nat)
    requires Counted(s) && During(s0, s, b) && Pending(s0, i) && OtherStep(s, s', b)
    requires b < |s'.pcs| && Signalling(s'.pcs[b])
    ensures During(s0, s', b)
  {
    if s.pcs[b].Count? {
      assert SameCapture(s0.pcs[i], s.pcs[i]);
      NumWaitingPositive(s.pcs);
    } else if s.pcs[b].Wake? {
      var woken: set<nat> :| MayWake(Sleepers(s.pcs), woken, 1) && s' == s.(pcs := WakeAll(s.pcs, woken, Roused)[b := Done(Signal, true)]);
      DuringWake(s0, s, b, i, woken);
    }
  }

  /** With the mutex held by b, the others neither enter a wait nor end one, and whoever falls asleep was to be reached. */
  lemma {:induction false} OtherStays(s: State, s': State, b: nat, k: nat)
    requires Inv(s) && NoWrap(s) && b < |s.pcs| && Signalling(s.pcs[b])
    requires k < |s.pcs| && k != b && ThreadStep(s, s', k)
    ensures |s'.pcs| == |s.pcs| && s'.pcs[b] == s.pcs[b] && s.bumps <= s'.bumps
    ensures forall j: nat :: j < |s.pcs| ==> SameCapture(s.pcs[j], s'.pcs[j])
    ensures forall j: nat :: j < |s.pcs| && s'.pcs[j].Asleep? ==> s.pcs[j].Asleep? || s.pcs[j].seen == s.bumps
  {
    assert Holds(s.pcs[b]) && !Holds(s.pcs[k]);
    if s.pcs[k].Sleep? {
      SameWord(s.pcs[k].seen, s.bumps);
    }
  }

  lemma {:induction false} DuringOtherStep(s0: State, s: State, s': State, b: nat, k: nat)
    requires Inv(s) && NoWrap(s) && During(s0, s, b)
    requires k < |s.pcs| && k != b && ThreadStep(s, s', k)
    ensures During(s0, s', b)
  {
    OtherStays(s, s', b, k);
    forall j: nat | j < |s'.pcs|
      ensures SameCapture(s0.pcs[j], s'.pcs[j])
      ensures s'.pcs[j].Asleep? ==> Pending(s0, j)
    {
      assert SameCapture(s0.pcs[j], s.pcs[j]) && SameCapture(s.pcs[j], s'.pcs[j]);
    }
    if s.pcs[b].Done? {
      var j: nat :| Pending(s0, j) && j < |s.pcs| && !s.pcs[j].Asleep?;
      assert SameCapture(s0.pcs[j], s.pcs[j]);
      assert Holds(s.pcs[b]) && Notified(s, s.pcs[b]);
      assert !s'.pcs[j].Asleep?;
    }
  }

  lemma {:induction false} DuringSignal(run: seq<State>, m: nat, n: nat, b: nat, i: nat)
    requires IsRun(run) && m <= n < |run| && b < |run[m].pcs|
    requires run[m].pcs[b] == Count(Signal, true) && Pending(run[m], i)
    requires forall k :: m <= k <= n ==> b < |run[k].pcs| && Signalling(run[k].pcs[b])
    ensures During(run[m], run[n], b)
  {
    if m < n {
      DuringSignal(run, m, n - 1, b, i);
      DuringAt(run, m, n - 1, b, i);
    }
  }

  lemma {:induction false} DuringAt(run: seq<State>, m: nat, k: nat, b: nat, i: nat)
    requires IsRun(run) && m <= k && k + 1 < |run| && During(run[m], run[k], b) && Pending(run[m], i)
    requires b < |run[k + 1].pcs| && Signalling(run[k + 1].pcs[b])
    ensures During(run[m], run[k + 1], b)
  {
    RunKeepsInv(run, k);
    assert StepAt(run, k) && NoWrap(run[k]);
    DuringNext(run[m], run[k], run[k + 1], b, i);
  }

  lemma {:induction false} DuringNext(s0: State, s: State, s': State, b: nat, i: nat)
    requires Inv(s) && NoWrap(s) && Step(s, s') && During(s0, s, b) && Pending(s0, i)
    requires b < |s'.pcs| && Signalling(s'.pcs[b])
    ensures During(s0, s', b)
  {
    var k: nat :| k < |s.pcs| && ThreadStep(s, s', k);
    if k == b {
      DuringOwnStep(s0, s, s', b, i);
    } else {
      DuringOtherStep(s0, s, s', b, k);
    }
  }

  /**
   * A signal made with the mutex held reaches a waiter that needed it: if some waiter was
   * asleep, or could still fall asleep, when the signal began, then when it returns one of
   * those no longer is and no longer can.
   */
  lemma {:induction false} SignalReleasesOne(run: seq<State>, m: nat, n: nat, b: nat, i: nat)
    requires IsRun(run) && m <= n < |run| && b < |run[m].pcs|
    requires run[m].pcs[b] == Count(Signal, true) && Pending(run[m], i)
    requires forall k :: m <= k <= n ==> b < |run[k].pcs| && Signalling(run[k].pcs[b])
    requires run[n].pcs[b] == Done(Signal, true)
    ensures exists j: nat :: Pending(run[m], j) && j < |run[n].pcs| && Released(run[n], run[n].pcs[j])
  {
    DuringSignal(run, m, n, b, i);
    RunKeepsInv(run, n);
    assert NoWrap(run[n]);
    StaleAwakeIsReleased(run[m], run[n], b);
  }

  lemma {:induction false} StaleAwakeIsReleased(s0: State, s: State, b: nat)
    requires Inv(s) && NoWrap(s) && During(s0, s, b) && s.pcs[b] == Done(Signal, true)
    ensures exists j: nat :: Pending(s0, j) && j < |s.pcs| && Released(s, s.pcs[j])
  {
    assert Holds(s.pcs[b]) && b == s.holder;
    var j: nat :| Pending(s0, j) && j < |s.pcs| && !s.pcs[j].Asleep?;
    assert SameCapture(s0.pcs[j], s.pcs[j]);
    SameWord(s.pcs[j].seen, s.bumps);
    assert Released(s, s.pcs[j]);
  }

  /** Thread i stays in the wait in which it captured `seen`, in every state from n to m. */
  ghost predicate SameWait(run: seq<State>, n: nat, m: nat, i: nat, seen: nat) {
    forall k: nat :: n <= k <= m && k < |run|
      ==> i < |run[k].pcs| && Captured(run[k].pcs[i]) && run[k].pcs[i].seen == seen
  }

  /** The waiter's own step. */
  lemma {:induction false} StaleWaiterStep(s: State, s': State, i: nat)
    requires i < |s.pcs| && Captured(s.pcs[i]) && WaiterStep(s, s', i)
    requires Word(s.pcs[i].seen) != Word(s.bumps) && !s.pcs[i].Asleep?
    ensures |s'.pcs| == |s.pcs| && !s'.pcs[i].Asleep? && s.bumps == s'.bumps
  {
  }

  /** Another thread's step puts nobody else to sleep. */
  lemma {:induction false} NobodyElseSleeps(s: State, s': State, k: nat, i: nat)
    requires k < |s.pcs| && ThreadStep(s, s', k) && i < |s.pcs| && i != k && !s.pcs[i].Asleep?
    ensures |s'.pcs| == |s.pcs| && !s'.pcs[i].Asleep? && s.bumps <= s'.bumps
  {
  }

  lemma {:induction false} StaleWaiterStaysAwake(s: State, s': State, i: nat)
    requires NoWrap(s) && Step(s, s') && i < |s.pcs|
    requires Captured(s.pcs[i]) && s.pcs[i].seen < s.bumps && !s.pcs[i].Asleep?
    ensures |s'.pcs| == |s.pcs| && !s'.pcs[i].Asleep? && s.bumps <= s'.bumps
  {
    var k: nat :| k < |s.pcs| && ThreadStep(s, s', k);
    if k == i {
      SameWord(s.pcs[i].seen, s.bumps);
      StaleWaiterStep(s, s', i);
    } else {
      NobodyElseSleeps(s, s', k, i);
    }
  }

  lemma {:induction false} RunStepStaysAwake(run: seq<State>, n: nat, i: nat)
    requires IsRun(run) && n + 1 < |run| && i < |run[n].pcs|
    requires Captured(run[n].pcs[i]) && run[n].pcs[i].seen < run[n].bumps && !run[n].pcs[i].Asleep?
    ensures |run[n + 1].pcs| == |run[n].pcs| && !run[n + 1].pcs[i].Asleep? && run[n].bumps <= run[n + 1].bumps
  {
    assert StepAt(run, n) && NoWrap(run[n]);
    StaleWaiterStaysAwake(run[n], run[n + 1], i);
  }

  /**
   * No lost wakeup: a thread that had entered the wait when a mutex-holding broadcast
   * completed never sleeps again in that wait, however the run continues.
   */
  lemma {:induction false} NoLostWakeup(run: seq<State>, n: nat, m: nat, b: nat, i: nat, seen: nat)
    requires IsRun(run) && n <= m < |run| && b < |run[n].pcs|
    requires run[n].pcs[b] == Done(Broadcast, true)
    requires SameWait(run, n, m, i, seen)
    ensures i < |run[m].pcs| && !run[m].pcs[i].Asleep? && seen < run[m].bumps
  {
    assert i < |run[n].pcs| && Captured(run[n].pcs[i]) && run[n].pcs[i].seen == seen;
    if m == n {
      BroadcastReachesAll(run, n, b, i);
    } else {
      NoLostWakeup(run, n, m - 1, b, i, seen);
      assert Captured(run[m - 1].pcs[i]) && run[m - 1].pcs[i].seen == seen;
      RunStepStaysAwake(run, m - 1, i);
    }
  }

  // ---------------------------------------------------------------- getting out

  predicate Waits(pc: Pc) { pc.Sleep? || pc.Asleep? || pc.Poll? || pc.TimedPoll? }

  /** A thread in a call that has something to do other than to wait for a notification. */
  predicate Busy(s: State, i: nat) {
    && i < |s.pcs| && !s.pcs[i].In? && !s.pcs[i].Out? && !s.pcs[i].Asleep?
    && (Waits(s.pcs[i]) ==> s.pcs[i].seen < s.bumps)
  }

  /** Between calls, or waiting with the current value captured. */
  predicate Resting(s: State, i: nat) {
    && i < |s.pcs|
    && (s.pcs[i].In? || s.pcs[i].Out? || (Waits(s.pcs[i]) && s.pcs[i].seen == s.bumps))
  }

  /** A busy waiter that has captured a value which is no longer the current one. */
  predicate Stale(s: State, i: nat) {
    i < |s.pcs| && Captured(s.pcs[i]) && !s.pcs[i].Asleep? && s.pcs[i].seen < s.bumps
  }

  /** How many steps of its own a busy thread still has at most, failed tries for the mutex not counted. */
  function Rank(pc: Pc): nat {
    match pc
    case Enter(_) => 8
    case Load(_) => 7
    case Drop(_, _) => 6
    case Dropped(_, _) => 5
    case Sleep(_) => 4
    case Poll(_) => 3
    case TimedPoll(_) => 3
    case Relock(_) => 2
    case Leave(_) => 1
    case Count(_, _) => 4
    case Bump(_, _, _) => 3
    case Wake(_, _, _) => 2
    case Done(_, _) => 1
    case _ => 0
  }

  /** Thread who[k] takes step k of the run. */
  ghost predicate TakenBy(run: seq<State>, who: seq<nat>, k: nat)
    requires |run| == |who| + 1
  {
    k < |who| ==> who[k] < |run[k].pcs| && ThreadStep(run[k], run[k + 1], who[k])
  }

  ghost predicate Follows(run: seq<State>, who: seq<nat>) { |run| == |who| + 1 && forall k: nat :: TakenBy(run, who, k) }

  /** No step of thread i from a to b is a failed try for the mutex. */
  ghost predicate Succeeds(run: seq<State>, who: seq<nat>, a: nat, b: nat, i: nat)
    requires |run| == |who| + 1
  {
    forall k :: a <= k < b <= |who| && who[k] == i && i < |run[k].pcs| && run[k].pcs[i].Relock? ==> run[k + 1] != run[k]
  }

  lemma {:induction false} OwnWaiterBusy(s: State, s': State, i: nat)
    requires Inv(s) && NoWrap(s) && Busy(s, i) && (s.pcs[i].Enter? || Waiting(s.pcs[i]))
    requires WaiterStep(s, s', i) && (s.pcs[i].Relock? ==> s' != s)
    ensures i < |s'.pcs| && (Resting(s', i) || (Busy(s', i) && Rank(s'.pcs[i]) < Rank(s.pcs[i])))
    ensures Stale(s, i) ==> (s'.pcs[i].In? && s'.holder == i) || Stale(s', i)
  {
    if Captured(s.pcs[i]) {
      SameWord(s.pcs[i].seen, s.bumps);
    }
    assert Holds(s.pcs[i]) <==> i == s.holder;
  }

  lemma {:induction false} OwnOtherBusy(s: State, s': State, i: nat)
    requires Busy(s, i) && !s.pcs[i].Enter? && !Waiting(s.pcs[i]) && OtherStep(s, s', i)
    ensures i < |s'.pcs| && (Resting(s', i) || (Busy(s', i) && Rank(s'.pcs[i]) < Rank(s.pcs[i])))
  {
  }

  lemma {:induction false} OthersLeaveBusy(s: State, s': State, j: nat, i: nat)
    requires j < |s.pcs| && i < |s.pcs| && i != j && ThreadStep(s, s', j) && !s.pcs[i].Asleep?
    ensures i < |s'.pcs| && s'.pcs[i] == s.pcs[i] && s.bumps <= s'.bumps
  {
  }

  lemma {:induction false} NextBusy(run: seq<State>, who: seq<nat>, k: nat, i: nat)
    requires IsRun(run) && Follows(run, who) && k < |who| && Busy(run[k], i) && Succeeds(run, who, k, k + 1, i)
    ensures i < |run[k + 1].pcs|
    ensures Resting(run[k + 1], i)
         || (Busy(run[k + 1], i) && Rank(run[k + 1].pcs[i]) + (if who[k] == i then 1 else 0) <= Rank(run[k].pcs[i]))
    ensures Stale(run[k], i) ==> (run[k + 1].pcs[i].In? && run[k + 1].holder == i) || Stale(run[k + 1], i)
  {
    RunKeepsInv(run, k);
    assert TakenBy(run, who, k) && NoWrap(run[k]);
    if who[k] != i {
      OthersLeaveBusy(run[k], run[k + 1], who[k], i);
    } else if run[k].pcs[i].Enter? || Waiting(run[k].pcs[i]) {
      OwnWaiterBusy(run[k], run[k + 1], i);
    } else {
      OwnOtherBusy(run[k], run[k + 1], i);
    }
  }

  lemma {:induction false} BusySoFar(run: seq<State>, who: seq<nat>, a: nat, b: nat, i: nat)
    requires IsRun(run) && Follows(run, who) && a <= b < |run| && Busy(run[a], i) && Succeeds(run, who, a, b, i)
    ensures (exists k :: a < k <= b && Resting(run[k], i))
         || (Busy(run[b], i) && Turns(who, a, b, i) + Rank(run[b].pcs[i]) <= Rank(run[a].pcs[i]))
    decreases b
  {
    if a < b {
      BusySoFar(run, who, a, b - 1, i);
      if Busy(run[b - 1], i) && forall k :: a < k <= b - 1 ==> !Resting(run[k], i) {
        NextBusy(run, who, b - 1, i);
      }
    }
  }

  /**
   * A call of wait, signal or broadcast is over, or waits for a notification, after eight
   * steps of the thread's own that are not failed tries for the mutex.
   */
  lemma {:induction false} BusyCallsEnd(run: seq<State>, who: seq<nat>, a: nat, b: nat, i: nat)
    requires IsRun(run) && Follows(run, who) && a <= b < |run| && Busy(run[a], i) && Succeeds(run, who, a, b, i)
    requires Turns(who, a, b, i) >= 8
    ensures exists k :: a < k <= b && Resting(run[k], i)
  {
    BusySoFar(run, who, a, b, i);
  }

  lemma {:induction false} StaleSoFar(run: seq<State>, who: seq<nat>, a: nat, b: nat, i: nat)
    requires IsRun(run) && Follows(run, who) && a <= b < |run| && Stale(run[a], i) && Succeeds(run, who, a, b, i)
    ensures (exists k :: a < k <= b && i < |run[k].pcs| && run[k].pcs[i].In? && run[k].holder == i)
         || (Stale(run[b], i) && Turns(who, a, b, i) + Rank(run[b].pcs[i]) <= Rank(run[a].pcs[i]))
    decreases b
  {
    if a < b {
      StaleSoFar(run, who, a, b - 1, i);
      if Stale(run[b - 1], i) && Turns(who, a, b - 1, i) + Rank(run[b - 1].pcs[i]) <= Rank(run[a].pcs[i]) {
        NextBusy(run, who, b - 1, i);
      }
    }
  }

  /** A released waiter is back from its wait, with the mutex, after six such steps. */
  lemma {:induction false} ReleasedGetsOut(run: seq<State>, who: seq<nat>, a: nat, b: nat, i: nat)
    requires IsRun(run) && Follows(run, who) && a <= b < |run|
    requires i < |run[a].pcs| && Released(run[a], run[a].pcs[i]) && Succeeds(run, who, a, b, i)
    requires Turns(who, a, b, i) >= 6
    ensures exists k :: a < k <= b && i < |run[k].pcs| && run[k].pcs[i].In? && run[k].holder == i
  {
    StaleSoFar(run, who, a, b, i);
  }

  /** Every thread can take its next step; a try for the mutex can succeed whenever nobody holds it. */
  lemma {:induction false} NobodyStuck(run: seq<State>, n: nat, i: nat)
    requires IsRun(run) && n < |run| && i < |run[n].pcs|
    ensures exists s' :: ThreadStep(run[n], s', i)
    ensures run[n].pcs[i].Relock? && (forall j: nat :: j < |run[n].pcs| ==> !Holds(run[n].pcs[j]))
      ==> exists s' :: ThreadStep(run[n], s', i) && i < |s'.pcs| && s'.pcs[i].Leave?
  {
    RunKeepsInv(run, n);
    var s := run[n];
    if s.pcs[i].Enter? || Waiting(s.pcs[i]) {
      WaiterCanGoOn(s, i);
    } else {
      OtherCanGoOn(s, i);
    }
  }

  lemma {:induction false} WaiterCanGoOn(s: State, i: nat)
    requires Inv(s) && i < |s.pcs| && (s.pcs[i].Enter? || Waiting(s.pcs[i]))
    ensures exists s' :: ThreadStep(s, s', i)
    ensures s.pcs[i].Relock? && (forall j: nat :: j < |s.pcs| ==> !Holds(s.pcs[j]))
      ==> exists s' :: ThreadStep(s, s', i) && i < |s'.pcs| && s'.pcs[i].Leave?
  {
    match s.pcs[i]
    case Enter(timed) => assert ThreadStep(s, To(s, i, Load(timed)).(waiters := s.waiters + 1), i);
    case Load(timed) => assert ThreadStep(s, To(s, i, Drop(s.bumps, timed)), i);
    case Drop(seen, timed) => assert ThreadStep(s, To(s, i, Dropped(seen, timed)).(mutex := 0, holder := -1), i);
    case Dropped(seen, timed) => assert ThreadStep(s, To(s, i, if timed then TimedPoll(seen) else Sleep(seen)), i);
    case Sleep(seen) => assert ThreadStep(s, To(s, i, if Word(s.bumps) == Word(seen) then Asleep(seen) else Poll(seen)), i);
    case Asleep(seen) => assert ThreadStep(s, To(s, i, Relock(seen)), i);
    case Poll(seen) => assert ThreadStep(s, To(s, i, if Word(s.bumps) == Word(seen) then Poll(seen) else Relock(seen)), i);
    case TimedPoll(seen) => assert ThreadStep(s, To(s, i, Relock(seen)), i);
    case Relock(seen) =>
      assert ThreadStep(s, s, i);
      if s.mutex == 0 {
        assert ThreadStep(s, To(s, i, Leave(seen)).(mutex := 1, holder := i), i);
      }
    case Leave(seen) => assert ThreadStep(s, To(s, i, In).(waiters := s.waiters - 1), i);
  }

  lemma {:induction false} OtherCanGoOn(s: State, i: nat)
    requires i < |s.pcs| && !s.pcs[i].Enter? && !Waiting(s.pcs[i])
    ensures exists s' :: ThreadStep(s, s', i)
  {
    match s.pcs[i]
    case Out => assert ThreadStep(s, To(s, i, Count(Signal, false)), i);
    case In => assert ThreadStep(s, To(s, i, Count(Signal, true)), i);
    case Count(op, held) => assert ThreadStep(s, To(s, i, if s.waiters > 0 then Bump(op, held, s.waiters) else Done(op, held)), i);
    case Bump(op, held, w) => assert ThreadStep(s, To(s, i, Wake(op, held, w)).(bumps := s.bumps + 1), i);
    case Wake(op, held, w) =>
      assert MayWake(Sleepers(s.pcs), Sleepers(s.pcs), if op.Signal? then 1 else w);
      assert ThreadStep(s, s.(pcs := WakeAll(s.pcs, Sleepers(s.pcs), Roused)[i := Done(op, held)]), i);
    case Done(op, held) => assert ThreadStep(s, To(s, i, if held then In else Out), i);
  }
}
