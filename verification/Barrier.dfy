/**
 * pthread_barrier_wait as a step system: every atomic load, store and fetch-add, and
 * every futex call, is one step, and any of the `limit` threads may take the next one.
 *
 * `phase` is the 32-bit futex word and wraps around. The number of phase increments so
 * far, |winners|, does not wrap and exists for the specification only, as do the
 * per-thread histories `arrivals`, `departures` and `serial`.
 */
module Barrier {

  import opened Cardinality
  import opened Futex
  import opened Schedule

  /** The next step of a thread; `seen` is the phase it loaded on entry. */
  datatype Pc =
    | Outside                // not in pthread_barrier_wait; next: load phase
    | Loaded(seen: nat)      // next: fetch-add count
    | Arrived(seen: nat)     // next: fetch-add waiters
    | Testing(seen: nat)     // next: load phase and compare
    | Parking(seen: nat)     // next: futex wait
    | Asleep(seen: nat)      // inside futex wait
    | Resetting              // last arrival; next: store count = 0
    | Bumping                // next: fetch-add phase
    | Waking                 // next: futex wake, return the serial result

  datatype Thread = Thread(pc: Pc, arrivals: nat, departures: nat, serial: set<nat>)

  datatype State = State(
    limit: nat,
    count: nat,
    phase: nat,
    waiters: nat,
    threads: seq<Thread>,
    leader: nat,             // history: last thread to complete a round's count
    winners: seq<nat>)       // history: winners[k] bumped the phase out of round k

  ghost predicate Init(s: State) {
    && s.limit >= 1
    && |s.threads| == s.limit
    && s.count == 0 && s.phase == 0 && s.waiters == 0 && s.leader == 0
    && s.winners == []
    && forall i :: 0 <= i < |s.threads| ==> s.threads[i] == Thread(Outside, 0, 0, {})
  }

  function Sleepers(ts: seq<Thread>): set<nat> {
    set i: nat | i < |ts| && ts[i].pc.Asleep?
  }

  function Roused(t: Thread): Thread {
    if t.pc.Asleep? then t.(pc := Testing(t.pc.seen)) else t
  }

  function Put(s: State, i: nat, t: Thread): State
    requires i < |s.threads|
  {
    s.(threads := s.threads[i := t])
  }

  /** The serial thread wakes the sleepers and returns PTHREAD_BARRIER_SERIAL_THREAD. */
  function SerialReturn(s: State, woken: set<nat>, i: nat): State
    requires i < |s.threads|
  {
    var t := s.threads[i];
    s.(threads := WakeAll(s.threads, woken, Roused)
       [i := t.(pc := Outside, departures := t.departures + 1, serial := t.serial + {t.departures})])
  }

  /** One atomic step of thread i. A sleeping thread may also return spuriously. */
  ghost predicate ThreadStep(s: State, s': State, i: nat)
    requires i < |s.threads|
  {
    var t := s.threads[i];
    match t.pc
    case Outside => s' == Put(s, i, t.(pc := Loaded(s.phase)))
    case Loaded(seen) =>
      var mine := s.count + 1;
      s' == Put(s, i, t.(arrivals := t.arrivals + 1,
                         pc := if mine < s.limit then Arrived(seen) else Resetting))
            .(count := mine, leader := if mine < s.limit then s.leader else i)
    case Arrived(seen) => s' == Put(s, i, t.(pc := Testing(seen))).(waiters := s.waiters + 1)
    case Testing(seen) =>
      s' == Put(s, i, if s.phase == seen then t.(pc := Parking(seen))
                      else t.(pc := Outside, departures := t.departures + 1))
    case Parking(seen) =>
      s' == Put(s, i, t.(pc := if s.phase == seen then Asleep(seen) else Testing(seen)))
    case Asleep(seen) => s' == Put(s, i, t.(pc := Testing(seen)))
    case Resetting => s' == Put(s, i, t.(pc := Bumping)).(count := 0)
    case Bumping =>
      s' == Put(s, i, t.(pc := Waking)).(phase := Word(s.phase + 1), winners := s.winners + [i])
    case Waking =>
      exists woken: set<nat> ::
        s.limit > 0 && MayWake(Sleepers(s.threads), woken, s.limit - 1) && s' == SerialReturn(s, woken, i)
  }

  ghost predicate Step(s: State, s': State) {
    exists i: nat :: i < |s.threads| && ThreadStep(s, s', i)
  }

  /** The k-th step of a run, if it has one. */
  ghost predicate StepAt(run: seq<State>, k: nat) {
    k + 1 < |run| ==> Step(run[k], run[k + 1])
  }

  ghost predicate IsRun(run: seq<State>) {
    && |run| > 0
    && Init(run[0])
    && forall k: nat :: StepAt(run, k)
  }

  /** Consecutive phases differ and wrap-around commutes with the increment. */
  lemma WordSuccessor(n: nat)
    ensures Word(n) != Word(n + 1)
    ensures Word(Word(n) + 1) == Word(n + 1)
  {
  }

  // ---------------------------------------------------------------- counting arrivals

  function NumArrived(ts: seq<Thread>, r: nat): (n: nat)
    ensures n <= |ts|
  {
    if ts == [] then 0
    else NumArrived(ts[..|ts| - 1], r) + if ts[|ts| - 1].arrivals == r then 1 else 0
  }

  lemma {:induction false} NumArrivedUpdate(ts: seq<Thread>, i: nat, t: Thread, r: nat)
    requires i < |ts|
    ensures NumArrived(ts[i := t], r)
         == NumArrived(ts, r) - (if ts[i].arrivals == r then 1 else 0) + (if t.arrivals == r then 1 else 0)
  {
    var n := |ts| - 1;
    if i == n {
      assert ts[i := t][..n] == ts[..n];
    } else {
      assert ts[i := t][..n] == ts[..n][i := t];
      NumArrivedUpdate(ts[..n], i, t, r);
    }
  }

  lemma {:induction false} NumArrivedFull(ts: seq<Thread>, r: nat)
    ensures NumArrived(ts, r) == |ts| <==> forall i :: 0 <= i < |ts| ==> ts[i].arrivals == r
  {
    if ts != [] {
      NumArrivedFull(ts[..|ts| - 1], r);
    }
  }

  lemma {:induction false} NumArrivedNone(ts: seq<Thread>, r: nat)
    requires forall i :: 0 <= i < |ts| ==> ts[i].arrivals != r
    ensures NumArrived(ts, r) == 0
  {
    if ts != [] {
      NumArrivedNone(ts[..|ts| - 1], r);
    }
  }

  lemma {:induction false} NumArrivedSame(ts: seq<Thread>, us: seq<Thread>, r: nat)
    requires |ts| == |us|
    requires forall i :: 0 <= i < |ts| ==> ts[i].arrivals == us[i].arrivals
    ensures NumArrived(ts, r) == NumArrived(us, r)
  {
    if ts != [] {
      NumArrivedSame(ts[..|ts| - 1], us[..|us| - 1], r);
    }
  }

  // ---------------------------------------------------------------- the invariant

  predicate Waiting(pc: Pc) {
    pc.Arrived? || pc.Testing? || pc.Parking? || pc.Asleep?
  }

  /** The thread completed the count of the current round and has not yet bumped the phase. */
  predicate Closing(pc: Pc) { pc.Resetting? || pc.Bumping? }

  /** Where a thread can be when r rounds are over. */
  ghost predicate Placed(t: Thread, r: nat, isLeader: bool, isWinner: bool) {
    match t.pc
    case Outside => t.arrivals == t.departures == r
    case Loaded(seen) => t.arrivals == t.departures == r && seen == Word(r)
    case Resetting => t.arrivals == r + 1 && t.departures == r && isLeader
    case Bumping => t.arrivals == r + 1 && t.departures == r && isLeader
    case Waking => t.arrivals == r && t.departures + 1 == r && isWinner
    case _ =>
      && t.arrivals == t.departures + 1
      && t.pc.seen == Word(t.departures)
      && (t.departures == r || (t.departures + 1 == r && !isWinner))
  }

  ghost predicate IsWinner(s: State, i: nat) {
    s.winners != [] && s.winners[|s.winners| - 1] == i
  }

  ghost predicate PlacedIn(s: State, i: nat)
    requires i < |s.threads|
  {
    Placed(s.threads[i], |s.winners|, i == s.leader, IsWinner(s, i))
  }

  /** The control part of the invariant. */
  ghost predicate Control(s: State) {
    var r := |s.winners|;
    && s.limit >= 1
    && |s.threads| == s.limit
    && s.phase == Word(r)
    && s.leader < s.limit
    && (r > 0 ==> s.winners[r - 1] < s.limit)
    && (forall i: nat :: i < s.limit ==> PlacedIn(s, i))
    && s.count == (if s.threads[s.leader].pc.Bumping? then 0 else NumArrived(s.threads, r + 1))
    && (NumArrived(s.threads, r + 1) == s.limit <==> Closing(s.threads[s.leader].pc))
  }

  /** A sleeper of a finished round has a wake coming. */
  ghost predicate WakePending(s: State)
    requires Control(s)
  {
    var r := |s.winners|;
    forall i: nat :: i < s.limit && s.threads[i].pc.Asleep? && s.threads[i].departures < r
      ==> s.threads[s.winners[r - 1]].pc.Waking?
  }

  /** A thread's serial results are exactly the finished rounds whose phase it bumped. */
  ghost predicate SerialHistory(t: Thread, winners: seq<nat>, i: nat) {
    && t.departures <= |winners|
    && forall k: nat :: k in t.serial <==> k < t.departures && winners[k] == i
  }

  ghost predicate Histories(s: State) {
    && (forall k :: 0 <= k < |s.winners| ==> s.winners[k] < |s.threads|)
    && forall i: nat :: i < |s.threads| ==> SerialHistory(s.threads[i], s.winners, i)
  }

  ghost predicate Inv(s: State) {
    Control(s) && WakePending(s) && Histories(s)
  }

  lemma {:induction false} InitEstablishesInv(s: State)
    requires Init(s)
    ensures Inv(s)
  {
    NumArrivedNone(s.threads, 1);
  }

  lemma {:induction false} MoveKeepsHistories(s: State, s': State, i: nat, t: Thread)
    requires Histories(s) && i < |s.threads| && s'.threads == s.threads[i := t] && s'.winners == s.winners
    requires SerialHistory(t, s.winners, i)
    ensures Histories(s')
  {
  }

  /** Steps that move one thread and leave the shared words and the arrivals alone. */
  lemma {:induction false} LocalStepKeepsControl(s: State, i: nat, t: Thread, waiters: nat)
    requires Control(s) && WakePending(s) && i < s.limit
    requires t.arrivals == s.threads[i].arrivals
    requires Placed(t, |s.winners|, i == s.leader, IsWinner(s, i))
    requires !Closing(t.pc) && !Closing(s.threads[i].pc) && !s.threads[i].pc.Waking?
    requires t.pc.Asleep? ==> t.departures == |s.winners|
    ensures var s' := Put(s, i, t).(waiters := waiters); Control(s') && WakePending(s')
  {
    var s' := Put(s, i, t).(waiters := waiters);
    NumArrivedUpdate(s.threads, i, t, |s.winners| + 1);
    OthersStayPlaced(s, s', i);
    assert PlacedIn(s', i);
  }

  lemma {:induction false} LocalStepKeepsInv(s: State, i: nat, t: Thread, waiters: nat)
    requires Inv(s) && i < s.limit
    requires t.arrivals == s.threads[i].arrivals
    requires Placed(t, |s.winners|, i == s.leader, IsWinner(s, i))
    requires SerialHistory(t, s.winners, i)
    requires !Closing(t.pc) && !Closing(s.threads[i].pc) && !s.threads[i].pc.Waking?
    requires t.pc.Asleep? ==> t.departures == |s.winners|
    ensures Inv(Put(s, i, t).(waiters := waiters))
  {
    LocalStepKeepsControl(s, i, t, waiters);
    MoveKeepsHistories(s, Put(s, i, t).(waiters := waiters), i, t);
  }

  lemma {:induction false} OthersStayPlaced(s: State, s': State, i: nat)
    requires Control(s) && i < s.limit && |s'.threads| == s.limit && s'.winners == s.winners
    requires forall j: nat :: j < s.limit && j != i ==> s'.threads[j] == s.threads[j]
    requires s'.leader == s.leader || !Closing(s.threads[s.leader].pc)
    ensures forall j: nat :: j < s.limit && j != i ==> PlacedIn(s', j)
  {
    forall j: nat | j < s.limit && j != i
      ensures PlacedIn(s', j)
    {
      assert PlacedIn(s, j);
    }
  }

  function Arrive(s: State, i: nat): State
    requires i < |s.threads| && s.threads[i].pc.Loaded?
  {
    var t, mine := s.threads[i], s.count + 1;
    Put(s, i, t.(arrivals := t.arrivals + 1, pc := if mine < s.limit then Arrived(t.pc.seen) else Resetting))
      .(count := mine, leader := if mine < s.limit then s.leader else i)
  }

  lemma {:induction false} ArrivalKeepsControl(s: State, i: nat)
    requires Control(s) && WakePending(s) && i < s.limit && s.threads[i].pc.Loaded?
    ensures Control(Arrive(s, i)) && WakePending(Arrive(s, i))
  {
    var s' := Arrive(s, i);
    var r := |s.winners|;
    assert PlacedIn(s, i);
    NumArrivedUpdate(s.threads, i, s'.threads[i], r + 1);
    NumArrivedFull(s.threads, r + 1);
    OthersStayPlaced(s, s', i);
    assert PlacedIn(s', i);
  }

  lemma {:induction false} ArrivalKeepsInv(s: State, s': State, i: nat)
    requires Inv(s) && i < s.limit && s.threads[i].pc.Loaded?
    requires ThreadStep(s, s', i)
    ensures Inv(s')
  {
    assert s' == Arrive(s, i);
    ArrivalKeepsControl(s, i);
    assert SerialHistory(s.threads[i], s.winners, i);
    MoveKeepsHistories(s, s', i, s'.threads[i]);
  }

  lemma {:induction false} ResetKeepsControl(s: State, i: nat)
    requires Control(s) && WakePending(s) && i < s.limit && s.threads[i].pc.Resetting?
    ensures var s' := Put(s, i, s.threads[i].(pc := Bumping)).(count := 0); Control(s') && WakePending(s')
  {
    var s' := Put(s, i, s.threads[i].(pc := Bumping)).(count := 0);
    assert PlacedIn(s, i);
    NumArrivedUpdate(s.threads, i, s'.threads[i], |s.winners| + 1);
    OthersStayPlaced(s, s', i);
    assert PlacedIn(s', i);
  }

  lemma {:induction false} ResetKeepsInv(s: State, s': State, i: nat)
    requires Inv(s) && i < s.limit && s.threads[i].pc.Resetting?
    requires ThreadStep(s, s', i)
    ensures Inv(s')
  {
    ResetKeepsControl(s, i);
    assert SerialHistory(s.threads[i], s.winners, i);
    MoveKeepsHistories(s, s', i, s.threads[i].(pc := Bumping));
  }

  lemma {:induction false} BumpKeepsInv(s: State, s': State, i: nat)
    requires Inv(s) && i < s.limit && s.threads[i].pc.Bumping?
    requires ThreadStep(s, s', i)
    ensures Inv(s')
  {
    var r := |s.winners|;
    assert PlacedIn(s, i);
    WordSuccessor(r);
    NumArrivedFull(s.threads, r + 1);
    forall j: nat | j < s.limit
      ensures PlacedIn(s', j) && s'.threads[j].arrivals == r + 1 && !Closing(s'.threads[j].pc)
    {
      assert PlacedIn(s, j);
    }
    NumArrivedNone(s'.threads, r + 2);
    forall j: nat | j < s.limit
      ensures SerialHistory(s'.threads[j], s'.winners, j)
    {
      assert SerialHistory(s.threads[j], s.winners, j);
    }
  }

  /** The serial thread is awake, so its wake of limit - 1 threads reaches every sleeper. */
  lemma WakeReachesAll(ts: seq<Thread>, i: nat, woken: set<nat>)
    requires i < |ts| && !ts[i].pc.Asleep?
    requires MayWake(Sleepers(ts), woken, |ts| - 1)
    ensures woken == Sleepers(ts)
  {
    var others := Sleepers(ts) + {i};
    SubsetCardinality(others, |ts|);
    assert |others| == |Sleepers(ts)| + 1;
    if woken != Sleepers(ts) {
      assert woken < Sleepers(ts);
      SubsetSmaller(woken, Sleepers(ts));
    }
  }

  lemma RousedPlaced(t: Thread, r: nat, isLeader: bool, isWinner: bool)
    requires Placed(t, r, isLeader, isWinner)
    ensures Placed(Roused(t), r, isLeader, isWinner)
  {
  }

  lemma {:induction false} WakeKeepsControl(s: State, s': State, i: nat)
    requires Control(s) && i < s.limit && s.threads[i].pc.Waking?
    requires |s'.threads| == |s.threads| && s' == s.(threads := s'.threads)
    requires s'.threads[i].pc.Outside?
    requires s'.threads[i].arrivals == s.threads[i].arrivals && s'.threads[i].departures == s.threads[i].departures + 1
    requires forall j: nat :: j < s.limit && j != i ==> s'.threads[j] in {s.threads[j], Roused(s.threads[j])}
    ensures Control(s')
  {
    var r := |s.winners|;
    assert PlacedIn(s, i) && PlacedIn(s, s.leader);
    forall j: nat | j < s.limit
      ensures PlacedIn(s', j)
    {
      assert PlacedIn(s, j);
      RousedPlaced(s.threads[j], r, j == s.leader, IsWinner(s, j));
    }
    NumArrivedSame(s.threads, s'.threads, r + 1);
    assert Closing(s'.threads[s.leader].pc) == Closing(s.threads[s.leader].pc);
  }

  lemma {:induction false} WakeKeepsInv(s: State, woken: set<nat>, i: nat)
    requires Inv(s) && i < s.limit && s.threads[i].pc.Waking?
    requires MayWake(Sleepers(s.threads), woken, s.limit - 1)
    ensures Inv(SerialReturn(s, woken, i))
  {
    WakeReachesAll(s.threads, i, woken);
    assert PlacedIn(s, i);
    WakeKeepsHistories(s, woken, i);
    WakeKeepsControl(s, SerialReturn(s, woken, i), i);
  }

  lemma {:induction false} WakeKeepsHistories(s: State, woken: set<nat>, i: nat)
    requires Histories(s) && i < |s.threads|
    requires IsWinner(s, i) && s.threads[i].departures + 1 == |s.winners|
    ensures Histories(SerialReturn(s, woken, i))
  {
    var s' := SerialReturn(s, woken, i);
    forall j: nat | j < |s.threads|
      ensures SerialHistory(s'.threads[j], s'.winners, j)
    {
      assert SerialHistory(s.threads[j], s.winners, j);
      if j == i {
        SerialHistoryGrows(s.threads[i], s'.threads[i], s.winners, i);
      }
    }
  }

  lemma {:induction false} SerialHistoryGrows(t: Thread, t': Thread, winners: seq<nat>, i: nat)
    requires SerialHistory(t, winners, i) && t.departures + 1 == |winners| && winners[t.departures] == i
    requires t'.departures == t.departures + 1 && t'.serial == t.serial + {t.departures}
    ensures SerialHistory(t', winners, i)
  {
  }

  lemma {:induction false} WaiterStepKeepsInv(s: State, s': State, i: nat)
    requires Inv(s) && i < s.limit && ThreadStep(s, s', i)
    requires s.threads[i].pc.Outside? || Waiting(s.threads[i].pc)
    ensures Inv(s')
  {
    var t := s.threads[i];
    assert PlacedIn(s, i) && SerialHistory(t, s.winners, i);
    WordSuccessor(t.departures);
    var t' := s'.threads[i];
    assert Placed(t', |s.winners|, i == s.leader, IsWinner(s, i));
    if t.pc.Testing? && s.phase != t.pc.seen {
      assert t.departures + 1 == |s.winners| && !IsWinner(s, i);
    }
    assert SerialHistory(t', s.winners, i);
    LocalStepKeepsInv(s, i, t', s'.waiters);
  }

  lemma {:induction false} StepKeepsInv(s: State, s': State)
    requires Inv(s) && Step(s, s')
    ensures Inv(s')
  {
    var i: nat :| i < |s.threads| && ThreadStep(s, s', i);
    match s.threads[i].pc
    case Loaded(_) => ArrivalKeepsInv(s, s', i);
    case Resetting => ResetKeepsInv(s, s', i);
    case Bumping => BumpKeepsInv(s, s', i);
    case Waking =>
      var woken: set<nat> :| s.limit > 0 && MayWake(Sleepers(s.threads), woken, s.limit - 1) && s' == SerialReturn(s, woken, i);
      WakeKeepsInv(s, woken, i);
    case _ => WaiterStepKeepsInv(s, s', i);
  }

  // ---------------------------------------------------------------- the theorems

  /** No thread has left round k before every thread arrived in round k. */
  ghost predicate NobodyLeavesEarly(s: State) {
    forall i: nat, j: nat :: i < |s.threads| && j < |s.threads|
      ==> s.threads[i].departures <= s.threads[j].arrivals
  }

  /** No thread is two rounds ahead of another. */
  ghost predicate Lockstep(s: State) {
    forall i: nat, j: nat :: i < |s.threads| && j < |s.threads|
      ==> s.threads[i].departures <= s.threads[j].departures + 1
  }

  /** Thread i got PTHREAD_BARRIER_SERIAL_THREAD from round k. */
  ghost predicate GotSerial(s: State, i: nat, k: nat) {
    i < |s.threads| && k in s.threads[i].serial
  }

  ghost predicate EverybodyLeft(s: State, k: nat) {
    forall i: nat :: i < |s.threads| ==> k < s.threads[i].departures
  }

  /** At most one serial result per round, and exactly one once everybody has left it. */
  ghost predicate OneSerialPerRound(s: State) {
    && (forall i: nat, j: nat, k: nat :: GotSerial(s, i, k) && GotSerial(s, j, k) ==> i == j)
    && (forall k: nat :: EverybodyLeft(s, k) ==> exists i: nat :: GotSerial(s, i, k))
  }

  /** A thread asleep on a phase that is over still has the wake of its round ahead of it. */
  ghost predicate NoLostWake(s: State) {
    forall i: nat :: i < |s.threads| && s.threads[i].pc.Asleep? && s.threads[i].pc.seen != s.phase
      ==> exists j: nat :: j < |s.threads| && s.threads[j].pc.Waking?
  }

  ghost predicate SomeoneAwake(s: State) {
    exists i: nat :: i < |s.threads| && !s.threads[i].pc.Asleep?
  }

  lemma {:induction false} RunKeepsInv(run: seq<State>, n: nat)
    requires IsRun(run) && n < |run|
    ensures Inv(run[n])
  {
    if n == 0 {
      InitEstablishesInv(run[0]);
    } else {
      RunKeepsInv(run, n - 1);
      assert StepAt(run, n - 1);
      StepKeepsInv(run[n - 1], run[n]);
    }
  }

  /** Barrier safety in every state of every interleaving, over any number of rounds. */
  lemma {:induction false} BarrierSafety(run: seq<State>, n: nat)
    requires IsRun(run) && n < |run|
    ensures NobodyLeavesEarly(run[n])
    ensures Lockstep(run[n])
    ensures OneSerialPerRound(run[n])
  {
    RunKeepsInv(run, n);
    ControlGivesLockstep(run[n]);
    HistoriesGiveOneSerial(run[n]);
  }

  lemma {:induction false} ControlGivesLockstep(s: State)
    requires Control(s)
    ensures NobodyLeavesEarly(s) && Lockstep(s)
  {
    var r := |s.winners|;
    forall i: nat | i < |s.threads|
      ensures s.threads[i].departures <= r <= s.threads[i].arrivals
      ensures r <= s.threads[i].departures + 1
    {
      assert PlacedIn(s, i);
    }
  }

  lemma {:induction false} HistoriesGiveOneSerial(s: State)
    requires Histories(s) && |s.threads| > 0
    ensures OneSerialPerRound(s)
  {
    forall i: nat, j: nat, k: nat | GotSerial(s, i, k) && GotSerial(s, j, k)
      ensures i == j
    {
      assert SerialHistory(s.threads[i], s.winners, i) && SerialHistory(s.threads[j], s.winners, j);
    }
    forall k: nat | EverybodyLeft(s, k)
      ensures exists i: nat :: GotSerial(s, i, k)
    {
      assert SerialHistory(s.threads[0], s.winners, 0);
      var w := s.winners[k];
      assert SerialHistory(s.threads[w], s.winners, w);
      assert GotSerial(s, w, k);
    }
  }

  /** In every reachable state no wakeup is lost and the threads are never all asleep. */
  lemma {:induction false} BarrierProgress(run: seq<State>, n: nat)
    requires IsRun(run) && n < |run|
    ensures NoLostWake(run[n])
    ensures SomeoneAwake(run[n])
  {
    RunKeepsInv(run, n);
    var s := run[n];
    var r := |s.winners|;
    forall i: nat | i < |s.threads| && s.threads[i].pc.Asleep? && s.threads[i].pc.seen != s.phase
      ensures exists j: nat :: j < |s.threads| && s.threads[j].pc.Waking?
    {
      assert PlacedIn(s, i);
      assert s.threads[s.winners[r - 1]].pc.Waking?;
    }
    if !SomeoneAwake(s) {
      forall i: nat | i < s.limit
        ensures s.threads[i].arrivals == r + 1
      {
        assert PlacedIn(s, i);
      }
      NumArrivedFull(s.threads, r + 1);
      assert false;
    }
  }

  // ---------------------------------------------------------------- leaving

  /** A thread whose round is over or that is ending it. */
  predicate Leaving(s: State, i: nat) {
    && i < |s.threads|
    && (Closing(s.threads[i].pc) || s.threads[i].pc.Waking?
        || (Waiting(s.threads[i].pc) && s.threads[i].departures < |s.winners|))
  }

  /** How many steps of its own it still has at most. */
  function Rank(pc: Pc): nat {
    match pc
    case Resetting => 3
    case Bumping => 2
    case Arrived(_) => 2
    case Parking(_) => 2
    case Asleep(_) => 2
    case _ => 1
  }

  /** Thread who[k] takes step k of the run. */
  ghost predicate TakenBy(run: seq<State>, who: seq<nat>, k: nat)
    requires |run| == |who| + 1
  {
    k < |who| ==> who[k] < |run[k].threads| && ThreadStep(run[k], run[k + 1], who[k])
  }

  ghost predicate Follows(run: seq<State>, who: seq<nat>) { |run| == |who| + 1 && forall k: nat :: TakenBy(run, who, k) }

  lemma {:induction false} OwnLeavingStep(s: State, s': State, i: nat)
    requires Inv(s) && Leaving(s, i) && ThreadStep(s, s', i)
    ensures i < |s'.threads|
    ensures (s'.threads[i].pc.Outside? && s'.threads[i].departures == s.threads[i].departures + 1)
         || (Leaving(s', i) && s'.threads[i].departures == s.threads[i].departures
             && Rank(s'.threads[i].pc) < Rank(s.threads[i].pc))
  {
    assert PlacedIn(s, i);
    WordSuccessor(s.threads[i].departures);
  }

  lemma {:induction false} OtherThreadStep(s: State, s': State, j: nat, i: nat)
    requires j < |s.threads| && i < |s.threads| && i != j && ThreadStep(s, s', j)
    ensures i < |s'.threads| && s'.threads[i] in {s.threads[i], Roused(s.threads[i])} && |s.winners| <= |s'.winners|
  {
  }

  /** One state of a run to the next, for a thread that is leaving. */
  lemma {:induction false} NextLeaving(run: seq<State>, who: seq<nat>, k: nat, i: nat)
    requires IsRun(run) && Follows(run, who) && k < |who| && Leaving(run[k], i)
    ensures i < |run[k + 1].threads|
    ensures var t, t' := run[k].threads[i], run[k + 1].threads[i];
            || t'.departures == t.departures + 1
            || (Leaving(run[k + 1], i) && t'.departures == t.departures
                && Rank(t'.pc) + (if who[k] == i then 1 else 0) <= Rank(t.pc))
  {
    RunKeepsInv(run, k);
    assert TakenBy(run, who, k);
    if who[k] == i {
      OwnLeavingStep(run[k], run[k + 1], i);
    } else {
      OtherThreadStep(run[k], run[k + 1], who[k], i);
    }
  }

  lemma {:induction false} NextStaysGone(run: seq<State>, k: nat, i: nat)
    requires IsRun(run) && k + 1 < |run| && i < |run[k].threads|
    ensures i < |run[k + 1].threads| && run[k].threads[i].departures <= run[k + 1].threads[i].departures
  {
    assert StepAt(run, k);
    var j: nat :| j < |run[k].threads| && ThreadStep(run[k], run[k + 1], j);
    if j != i {
      OtherThreadStep(run[k], run[k + 1], j, i);
    }
  }

  lemma {:induction false} LeavingSoFar(run: seq<State>, who: seq<nat>, a: nat, b: nat, i: nat)
    requires IsRun(run) && Follows(run, who) && a <= b < |run| && Leaving(run[a], i)
    ensures i < |run[b].threads|
    ensures var t, t' := run[a].threads[i], run[b].threads[i];
            || t'.departures > t.departures
            || (Leaving(run[b], i) && t'.departures == t.departures && Turns(who, a, b, i) + Rank(t'.pc) <= Rank(t.pc))
    decreases b
  {
    if a < b {
      LeavingSoFar(run, who, a, b - 1, i);
      NextStaysGone(run, b - 1, i);
      if run[b - 1].threads[i].departures == run[a].threads[i].departures {
        NextLeaving(run, who, b - 1, i);
      }
    }
  }

  /**
   * Once its round is over a thread has left after three steps of its own, whatever the
   * others do; and a thread that ends a round has ended it, and left, after as many.
   */
  lemma {:induction false} LeavesInOwnSteps(run: seq<State>, who: seq<nat>, a: nat, b: nat, i: nat)
    requires IsRun(run) && Follows(run, who) && a <= b < |run| && Leaving(run[a], i)
    requires Turns(who, a, b, i) >= 3
    ensures i < |run[b].threads| && run[b].threads[i].departures > run[a].threads[i].departures
  {
    LeavingSoFar(run, who, a, b, i);
  }

  lemma {:induction false} NextEntering(run: seq<State>, who: seq<nat>, k: nat, i: nat)
    requires IsRun(run) && Follows(run, who) && k < |who| && i < |run[k].threads|
    ensures i < |run[k + 1].threads| && run[k].threads[i].arrivals <= run[k + 1].threads[i].arrivals
    ensures who[k] != i && !run[k].threads[i].pc.Asleep? ==> run[k + 1].threads[i] == run[k].threads[i]
    ensures who[k] == i && run[k].threads[i].pc.Outside? ==> run[k + 1].threads[i].pc.Loaded?
    ensures who[k] == i && run[k].threads[i].pc.Loaded? ==> run[k + 1].threads[i].arrivals > run[k].threads[i].arrivals
  {
    assert TakenBy(run, who, k);
    if who[k] != i {
      OtherThreadStep(run[k], run[k + 1], who[k], i);
    }
  }

  /** A call has arrived in its round after two steps of the thread's own. */
  lemma {:induction false} ArrivesInOwnSteps(run: seq<State>, who: seq<nat>, a: nat, b: nat, i: nat)
    requires IsRun(run) && Follows(run, who) && a <= b < |run| && i < |run[a].threads|
    requires run[a].threads[i].pc.Outside? || run[a].threads[i].pc.Loaded?
    ensures i < |run[b].threads|
    ensures run[b].threads[i].arrivals > run[a].threads[i].arrivals
         || (Turns(who, a, b, i) == 0 && run[b].threads[i] == run[a].threads[i])
         || (Turns(who, a, b, i) == 1 && run[a].threads[i].pc.Outside? && run[b].threads[i].pc.Loaded?
             && run[b].threads[i].arrivals == run[a].threads[i].arrivals)
    decreases b
  {
    if a < b {
      ArrivesInOwnSteps(run, who, a, b - 1, i);
      NextEntering(run, who, b - 1, i);
      if who[b - 1] == i && run[b - 1].threads[i].pc.Outside? {
        assert TakenBy(run, who, b - 1);
      }
    }
  }

  /** Once every thread has arrived in the round that is on, one of them is ending it. */
  lemma {:induction false} FullRoundIsEnding(run: seq<State>, n: nat)
    requires IsRun(run) && n < |run|
    requires forall i: nat :: i < |run[n].threads| ==> run[n].threads[i].arrivals == |run[n].winners| + 1
    ensures exists j: nat :: j < |run[n].threads| && Closing(run[n].threads[j].pc) && Leaving(run[n], j)
  {
    RunKeepsInv(run, n);
    NumArrivedFull(run[n].threads, |run[n].winners| + 1);
  }

  /** In every reachable state every thread can take its next step. */
  lemma {:induction false} NobodyStuck(run: seq<State>, n: nat, i: nat)
    requires IsRun(run) && n < |run| && i < |run[n].threads|
    ensures exists s' :: ThreadStep(run[n], s', i)
  {
    RunKeepsInv(run, n);
    var s := run[n];
    var t := s.threads[i];
    match t.pc
    case Outside => assert ThreadStep(s, Put(s, i, t.(pc := Loaded(s.phase))), i);
    case Loaded(_) => assert ThreadStep(s, Arrive(s, i), i);
    case Arrived(seen) => assert ThreadStep(s, Put(s, i, t.(pc := Testing(seen))).(waiters := s.waiters + 1), i);
    case Testing(seen) =>
      assert ThreadStep(s, Put(s, i, if s.phase == seen then t.(pc := Parking(seen))
                                      else t.(pc := Outside, departures := t.departures + 1)), i);
    case Parking(seen) =>
      assert ThreadStep(s, Put(s, i, t.(pc := if s.phase == seen then Asleep(seen) else Testing(seen))), i);
    case Asleep(seen) => assert ThreadStep(s, Put(s, i, t.(pc := Testing(seen))), i);
    case Resetting => assert ThreadStep(s, Put(s, i, t.(pc := Bumping)).(count := 0), i);
    case Bumping => assert ThreadStep(s, Put(s, i, t.(pc := Waking)).(phase := Word(s.phase + 1), winners := s.winners + [i]), i);
    case Waking =>
      assert MayWake(Sleepers(s.threads), Sleepers(s.threads), s.limit - 1);
      assert ThreadStep(s, SerialReturn(s, Sleepers(s.threads), i), i);
  }
}
