/**
 * pthread_mutex_lock, trylock, timedlock and unlock as a step system: every load, store
 * and compare-and-swap of `futex`, `owner` and `recursive_count`, and every futex call,
 * is one step. Any number of threads run; thread i has the nonzero id i + 1. Only a
 * thread that holds the mutex unlocks it.
 *
 * `locks` and `unlocks` count a thread's successful calls and `holder` names the thread
 * that won the compare-and-swap; they exist for the specification only. `ownerDeath`
 * says whether the kernel may ever report EOWNERDEAD to a waiting thread.
 */
module Mutex {

  import opened Schedule

  datatype Kind = Normal | Recursive | ErrorCheck | Robust

  datatype Call = Lock | TryLock | TimedLock

  /** The next step of a thread. */
  datatype Pc =
    | Idle                    // between calls
    | CheckOwner(call: Call)  // load owner
    | LoadCount               // recursive_count++: load
    | StoreCount(n: nat)      // recursive_count++: store n + 1
    | Cas(call: Call)         // compare-and-swap futex 0 -> 1
    | Wait                    // futex wait
    | Asleep                  // inside futex wait
    | Dead                    // store owner = 0, return EOWNERDEAD
    | Claim                   // store owner = own id
    | InitCount               // store recursive_count = 1
    | TestCount               // unlock: load recursive_count, compare with 1
    | ReloadCount             // recursive_count--: load
    | DropCount(n: nat)       // recursive_count--: store n - 1
    | ClearOwner              // store owner = 0
    | ClearCount              // store recursive_count = 0
    | Release                 // store futex = 0
    | Wake                    // futex wake of one thread

  datatype Thread = Thread(pc: Pc, locks: nat, unlocks: nat)

  datatype State = State(
    kind: Kind,
    ownerDeath: bool,
    futex: nat,
    owner: nat,
    count: int,
    threads: seq<Thread>,
    holder: int)

  function Depth(t: Thread): int { t.locks - t.unlocks }

  /** Between winning the compare-and-swap and giving the futex word back. */
  predicate Holding(t: Thread) {
    Depth(t) > 0 || t.pc.Claim? || t.pc.InitCount?
  }

  ghost predicate Init(s: State) {
    && s.futex == 0 && s.owner == 0 && s.count == 0 && s.holder == -1
    && forall i :: 0 <= i < |s.threads| ==> s.threads[i] == Thread(Idle, 0, 0)
  }

  predicate ChecksOwner(k: Kind) { k.Recursive? || k.ErrorCheck? }

  function To(s: State, i: nat, pc: Pc): State
    requires i < |s.threads|
  {
    s.(threads := s.threads[i := s.threads[i].(pc := pc)])
  }

  function Locked(s: State, i: nat): State
    requires i < |s.threads|
  {
    var t := s.threads[i];
    s.(threads := s.threads[i := t.(pc := Idle, locks := t.locks + 1)])
  }

  function Unlocked(s: State, i: nat, pc: Pc): State
    requires i < |s.threads|
  {
    var t := s.threads[i];
    s.(threads := s.threads[i := t.(pc := pc, unlocks := t.unlocks + 1)])
  }

  /** Where a failed compare-and-swap may lead; the weak one may fail on a free word. */
  ghost predicate CasFails(s: State, s': State, i: nat, call: Call)
    requires i < |s.threads|
  {
    match call
    case Lock => s' == To(s, i, Wait)
    case TryLock => s.futex != 0 && s' == To(s, i, Idle)                 // EBUSY
    case TimedLock => s' == To(s, i, Cas(TimedLock)) || s' == To(s, i, Idle)  // retry or ETIMEDOUT
  }

  ghost predicate CasWins(s: State, s': State, i: nat)
    requires i < |s.threads|
  {
    s.futex == 0 && s' == To(s, i, Claim).(futex := 1, holder := i)
  }

  ghost predicate WakesOne(s: State, s': State, i: nat)
    requires i < |s.threads|
  {
    || ((forall j: nat :: j < |s.threads| ==> !s.threads[j].pc.Asleep?) && s' == To(s, i, Idle))
    || (exists j: nat :: j < |s.threads| && s.threads[j].pc.Asleep? && s' == To(To(s, j, Cas(Lock)), i, Idle))
  }

  ghost predicate ThreadStep(s: State, s': State, i: nat)
    requires i < |s.threads|
  {
    var t := s.threads[i];
    match t.pc
    case Idle =>
      || (exists call: Call :: s' == To(s, i, if ChecksOwner(s.kind) then CheckOwner(call) else Cas(call)))
      || (Depth(t) > 0 && s' == To(s, i, if s.kind.Recursive? then TestCount else ClearOwner))
    case CheckOwner(call) =>
      s' == To(s, i, if s.owner != i + 1 then Cas(call)
                     else if s.kind.Recursive? then LoadCount
                     else Idle)                                          // EDEADLK
    case LoadCount => s.count >= 0 && s' == To(s, i, StoreCount(s.count))
    case StoreCount(n) => s' == Locked(s, i).(count := n + 1)
    case Cas(call) => CasWins(s, s', i) || CasFails(s, s', i, call)
    case Wait =>
      || (s.futex == 1 && s' == To(s, i, Asleep))
      || s' == To(s, i, Cas(Lock))
      || (s.ownerDeath && s' == To(s, i, Dead))
    case Asleep => s' == To(s, i, Cas(Lock)) || (s.ownerDeath && s' == To(s, i, Dead))
    case Dead => s' == To(s, i, Idle).(owner := 0)
    case Claim =>
      s' == (if s.kind.Recursive? then To(s, i, InitCount) else Locked(s, i)).(owner := i + 1)
    case InitCount => s' == Locked(s, i).(count := 1)
    case TestCount => s' == To(s, i, if s.count > 1 then ReloadCount else ClearOwner)
    case ReloadCount => s.count >= 0 && s' == To(s, i, DropCount(s.count))
    case DropCount(n) => s' == Unlocked(s, i, Idle).(count := n - 1)
    case ClearOwner => s' == To(s, i, if s.kind.Recursive? then ClearCount else Release).(owner := 0)
    case ClearCount => s' == To(s, i, Release).(count := 0)
    case Release => s' == Unlocked(s, i, Wake).(futex := 0, holder := -1)
    case Wake => WakesOne(s, s', i)
  }

  ghost predicate Step(s: State, s': State) {
    exists i: nat :: i < |s.threads| && ThreadStep(s, s', i)
  }

  /** The k-th step of a run, if it has one. */
  ghost predicate StepAt(run: seq<State>, k: nat) {
    k + 1 < |run| ==> Step(run[k], run[k + 1])
  }

  ghost predicate IsRun(run: seq<State>) {
    && |run| > 0
    && Init(run[0])
    && forall k: nat :: StepAt(run, k)
  }

  // ---------------------------------------------------------------- the invariant

  /** A thread that does not hold the mutex. */
  predicate Free(t: Thread) {
    && Depth(t) == 0
    && (t.pc.Idle? || t.pc.CheckOwner? || t.pc.Cas? || t.pc.Wait? || t.pc.Asleep? || t.pc.Dead? || t.pc.Wake?)
  }

  /** The holder between calls: its balance is what the mutex records. */
  ghost predicate Settled(t: Thread, i: nat, kind: Kind, ownerDeath: bool, owner: nat, count: int) {
    && Depth(t) > 0
    && (if kind.Recursive? then count == Depth(t) else Depth(t) == 1)
    && (!ownerDeath ==> owner == i + 1)
  }

  /** What holds of the thread that won the compare-and-swap, at each of its steps. */
  ghost predicate Held(t: Thread, i: nat, kind: Kind, ownerDeath: bool, owner: nat, count: int) {
    var d := Depth(t);
    match t.pc
    case Claim => d == 0
    case InitCount => d == 0 && kind.Recursive? && (!ownerDeath ==> owner == i + 1)
    case ClearCount => d == 1 && kind.Recursive? && owner == 0
    case Release => d == 1 && owner == 0
    case Wake => false
    case _ =>
      && Settled(t, i, kind, ownerDeath, owner, count)
      && match t.pc
         case Idle => true
         case CheckOwner(_) => true
         case LoadCount => kind.Recursive?
         case StoreCount(n) => kind.Recursive? && n == d
         case TestCount => kind.Recursive?
         case ReloadCount => kind.Recursive? && d > 1
         case DropCount(n) => kind.Recursive? && n == d > 1
         case ClearOwner => d == 1
         case _ => ChecksOwner(kind) ==> ownerDeath
  }

  ghost predicate HolderInv(s: State) {
    && -1 <= s.holder < |s.threads|
    && s.futex == (if s.holder >= 0 then 1 else 0)
    && (s.owner != 0 ==> s.holder >= 0 && s.owner == s.holder + 1)
    && (s.holder >= 0 ==> Held(s.threads[s.holder], s.holder, s.kind, s.ownerDeath, s.owner, s.count))
  }

  ghost predicate Inv(s: State) {
    && HolderInv(s)
    && (forall i: nat :: i < |s.threads| && i != s.holder ==> Free(s.threads[i]))
    && (!s.ownerDeath ==> forall i: nat :: i < |s.threads| ==> !s.threads[i].pc.Dead?)
  }

  lemma InitEstablishesInv(s: State)
    requires Init(s)
    ensures Inv(s)
  {
  }

  /** A step that changes one thread keeps the invariant if the holder's part survives. */
  lemma {:induction false} OneThreadChanges(s: State, s': State, i: nat)
    requires Inv(s) && i < |s.threads| && HolderInv(s')
    requires |s'.threads| == |s.threads| && s' == s.(threads := s'.threads, futex := s'.futex,
               owner := s'.owner, count := s'.count, holder := s'.holder)
    requires s'.threads == s.threads[i := s'.threads[i]]
    requires s'.holder == s.holder || s.holder == i || s'.holder == i
    requires s'.holder != i ==> Free(s'.threads[i])
    requires s'.holder == i ==> s.holder in {-1, i as int}
    requires s.ownerDeath || !s'.threads[i].pc.Dead?
    ensures Inv(s')
  {
  }

  lemma {:induction false} HolderWaitStep(s: State, s': State, i: nat)
    requires Inv(s) && i < |s.threads| && i == s.holder && ThreadStep(s, s', i)
    requires var pc := s.threads[i].pc; pc.Idle? || pc.CheckOwner? || pc.Wait? || pc.Asleep? || pc.Dead?
    ensures Inv(s')
  {
    assert s'.threads == s.threads[i := s'.threads[i]];
    assert HolderInv(s');
    OneThreadChanges(s, s', i);
  }

  lemma {:induction false} HolderLockStep(s: State, s': State, i: nat)
    requires Inv(s) && i < |s.threads| && i == s.holder && ThreadStep(s, s', i)
    requires var pc := s.threads[i].pc; pc.LoadCount? || pc.StoreCount? || pc.Claim? || pc.InitCount?
    ensures Inv(s')
  {
    assert s'.threads == s.threads[i := s'.threads[i]];
    assert HolderInv(s');
    OneThreadChanges(s, s', i);
  }

  lemma {:induction false} HolderUnlockStep(s: State, s': State, i: nat)
    requires Inv(s) && i < |s.threads| && i == s.holder && ThreadStep(s, s', i)
    requires var pc := s.threads[i].pc;
      pc.TestCount? || pc.ReloadCount? || pc.DropCount? || pc.ClearOwner? || pc.ClearCount? || pc.Release?
    ensures Inv(s')
  {
    assert s'.threads == s.threads[i := s'.threads[i]];
    assert HolderInv(s');
    OneThreadChanges(s, s', i);
  }

  lemma {:induction false} FreeCallStep(s: State, s': State, i: nat)
    requires Inv(s) && i < |s.threads| && i != s.holder && ThreadStep(s, s', i)
    requires s.threads[i].pc.Idle? || s.threads[i].pc.CheckOwner?
    ensures Inv(s')
  {
    assert Free(s.threads[i]);
    assert s'.threads == s.threads[i := s'.threads[i]];
    OneThreadChanges(s, s', i);
  }

  lemma {:induction false} FreeWaitStep(s: State, s': State, i: nat)
    requires Inv(s) && i < |s.threads| && i != s.holder && ThreadStep(s, s', i)
    requires s.threads[i].pc.Wait? || s.threads[i].pc.Asleep? || s.threads[i].pc.Dead?
    ensures Inv(s')
  {
    assert Free(s.threads[i]);
    assert s'.threads == s.threads[i := s'.threads[i]];
    OneThreadChanges(s, s', i);
  }

  lemma {:induction false} FreeStep(s: State, s': State, i: nat)
    requires Inv(s) && i < |s.threads| && i != s.holder && ThreadStep(s, s', i)
    requires !s.threads[i].pc.Wake? && !s.threads[i].pc.Cas?
    ensures Inv(s')
  {
    assert Free(s.threads[i]);
    if s.threads[i].pc.Idle? || s.threads[i].pc.CheckOwner? {
      FreeCallStep(s, s', i);
    } else {
      FreeWaitStep(s, s', i);
    }
  }

  lemma {:induction false} CasWinsStep(s: State, s': State, i: nat)
    requires Inv(s) && i < |s.threads| && s.threads[i].pc.Cas? && CasWins(s, s', i)
    ensures Inv(s')
  {
    assert Free(s.threads[i]);
    OneThreadChanges(s, s', i);
  }

  lemma {:induction false} CasFailsStep(s: State, s': State, i: nat, call: Call)
    requires Inv(s) && i < |s.threads| && s.threads[i].pc == Cas(call) && CasFails(s, s', i, call)
    ensures Inv(s')
  {
    assert i != s.holder ==> Free(s.threads[i]);
    OneThreadChanges(s, s', i);
  }

  lemma {:induction false} CasStep(s: State, s': State, i: nat)
    requires Inv(s) && i < |s.threads| && ThreadStep(s, s', i)
    requires s.threads[i].pc.Cas?
    ensures Inv(s')
  {
    if CasWins(s, s', i) {
      CasWinsStep(s, s', i);
    } else {
      CasFailsStep(s, s', i, s.threads[i].pc.call);
    }
  }

  lemma {:induction false} SleeperWakes(s: State, j: nat)
    requires Inv(s) && j < |s.threads| && s.threads[j].pc.Asleep?
    ensures Inv(To(s, j, Cas(Lock)))
  {
    var mid := To(s, j, Cas(Lock));
    if j == s.holder {
      HolderWaitStep(s, mid, j);
    } else {
      FreeStep(s, mid, j);
    }
  }

  lemma {:induction false} WakerReturns(s: State, i: nat)
    requires Inv(s) && i < |s.threads| && s.threads[i].pc.Wake?
    ensures Inv(To(s, i, Idle))
  {
    assert i != s.holder;
    OneThreadChanges(s, To(s, i, Idle), i);
  }

  lemma {:induction false} WakeStep(s: State, s': State, i: nat)
    requires Inv(s) && i < |s.threads| && s.threads[i].pc.Wake? && WakesOne(s, s', i)
    ensures Inv(s')
  {
    if j: nat :| j < |s.threads| && s.threads[j].pc.Asleep? && s' == To(To(s, j, Cas(Lock)), i, Idle) {
      SleeperWakes(s, j);
      WakerReturns(To(s, j, Cas(Lock)), i);
    } else {
      WakerReturns(s, i);
    }
  }

  lemma {:induction false} StepKeepsInv(s: State, s': State)
    requires Inv(s) && Step(s, s')
    ensures Inv(s')
  {
    var i: nat :| i < |s.threads| && ThreadStep(s, s', i);
    var pc := s.threads[i].pc;
    if pc.Cas? { CasStep(s, s', i); }
    else if pc.Wake? { WakeStep(s, s', i); }
    else if i != s.holder { FreeStep(s, s', i); }
    else if pc.Idle? || pc.CheckOwner? || pc.Wait? || pc.Asleep? || pc.Dead? { HolderWaitStep(s, s', i); }
    else if pc.LoadCount? || pc.StoreCount? || pc.Claim? || pc.InitCount? { HolderLockStep(s, s', i); }
    else { HolderUnlockStep(s, s', i); }
  }

  lemma {:induction false} RunKeepsInv(run: seq<State>, n: nat)
    requires IsRun(run) && n < |run|
    ensures Inv(run[n])
  {
    if n == 0 {
      InitEstablishesInv(run[0]);
    } else {
      RunKeepsInv(run, n - 1);
      assert StepAt(run, n - 1);
      StepKeepsInv(run[n - 1], run[n]);
    }
  }

  // ---------------------------------------------------------------- the theorems

  ghost predicate MutualExclusion(s: State) {
    forall i: nat, j: nat :: i < |s.threads| && j < |s.threads| && Holding(s.threads[i]) && Holding(s.threads[j])
      ==> i == j
  }

  /** `owner` never names a thread that does not hold the mutex. */
  ghost predicate OwnerHolds(s: State) {
    forall i: nat :: i < |s.threads| && s.owner == i + 1 ==> Holding(s.threads[i])
  }

  /** The futex word is taken exactly while some thread's lock and unlock counts differ or it is claiming. */
  ghost predicate WordTracksBalance(s: State) {
    && s.futex <= 1
    && (s.futex == 1 <==> exists i: nat :: i < |s.threads| && Holding(s.threads[i]))
  }

  /** Between calls, a recursive mutex counts the holder's unmatched locks; other kinds nest no deeper than one. */
  ghost predicate CountIsBalance(s: State) {
    forall i: nat :: i < |s.threads| && Depth(s.threads[i]) > 0 && s.threads[i].pc.Idle?
      ==> if s.kind.Recursive? then s.count == Depth(s.threads[i]) else Depth(s.threads[i]) == 1
  }

  /** Relocking a recursive or error-checking mutex never makes its holder wait for itself. */
  ghost predicate NoSelfDeadlock(s: State) {
    forall i: nat :: i < |s.threads| && Depth(s.threads[i]) > 0
      ==> !s.threads[i].pc.Cas? && !s.threads[i].pc.Wait? && !s.threads[i].pc.Asleep?
  }

  lemma {:induction false} MutexSafety(run: seq<State>, n: nat)
    requires IsRun(run) && n < |run|
    ensures MutualExclusion(run[n])
    ensures OwnerHolds(run[n])
    ensures WordTracksBalance(run[n])
    ensures CountIsBalance(run[n])
    ensures ChecksOwner(run[n].kind) && !run[n].ownerDeath ==> NoSelfDeadlock(run[n])
  {
    RunKeepsInv(run, n);
    var s := run[n];
    forall i: nat | i < |s.threads|
      ensures Holding(s.threads[i]) <==> i == s.holder
    {
      assert i != s.holder ==> Free(s.threads[i]);
    }
  }

  /** A thread on its way to try the futex word, or about to wake one that sleeps on it. */
  predicate Attending(pc: Pc) { pc.Wake? || pc.Wait? || pc == Cas(Lock) }

  /** A sleeper exists only while the word is taken or somebody will still attend to it. */
  ghost predicate NoLostUnlock(s: State) {
    forall k: nat :: k < |s.threads| && s.threads[k].pc.Asleep?
      ==> s.futex == 1 || exists j: nat :: j < |s.threads| && Attending(s.threads[j].pc)
  }

  lemma {:induction false} WakeAttends(s: State, s': State, i: nat, k: nat)
    requires i < |s.threads| && s.threads[i].pc.Wake? && WakesOne(s, s', i)
    requires k < |s.threads| && s.threads[k].pc.Asleep?
    ensures exists j: nat :: j < |s'.threads| && Attending(s'.threads[j].pc)
  {
    var j: nat :| j < |s.threads| && s.threads[j].pc.Asleep? && s' == To(To(s, j, Cas(Lock)), i, Idle);
    assert Attending(s'.threads[j].pc);
  }

  /** A thread on its way to the word stays on it, or takes the word. */
  lemma {:induction false} StaysAttending(s: State, s': State, i: nat, j: nat)
    requires i < |s.threads| && ThreadStep(s, s', i) && !s.threads[i].pc.Wake? && !s.ownerDeath
    requires j < |s.threads| && Attending(s.threads[j].pc) && s.futex != 1
    ensures j < |s'.threads| && (s'.futex == 1 || Attending(s'.threads[j].pc))
  {
  }

  /** Giving the word back puts the thread on its way to wake a sleeper; nothing else frees it. */
  lemma {:induction false} OnlyReleaseFrees(s: State, s': State, i: nat)
    requires i < |s.threads| && ThreadStep(s, s', i) && !s.threads[i].pc.Wake? && !s.ownerDeath
    requires s.futex == 1 && s'.futex != 1
    ensures i < |s'.threads| && Attending(s'.threads[i].pc)
  {
  }

  /** Nobody falls asleep while the word is free. */
  lemma {:induction false} NoNewSleeper(s: State, s': State, i: nat, k: nat)
    requires i < |s.threads| && ThreadStep(s, s', i) && !s.threads[i].pc.Wake?
    requires k < |s'.threads| && s'.threads[k].pc.Asleep?
    ensures k < |s.threads| && (s.threads[k].pc.Asleep? || s.futex == 1)
  {
  }

  lemma {:induction false} StepKeepsNoLostUnlock(s: State, s': State, i: nat)
    requires i < |s.threads| && ThreadStep(s, s', i)
    requires !s.ownerDeath && NoLostUnlock(s)
    ensures NoLostUnlock(s')
  {
    if k: nat :| k < |s'.threads| && s'.threads[k].pc.Asleep? && s'.futex != 1 {
      if s.threads[i].pc.Wake? {
        WakeAttends(s, s', i, k);
      } else if s.futex == 1 {
        OnlyReleaseFrees(s, s', i);
      } else {
        NoNewSleeper(s, s', i, k);
        var j: nat :| j < |s.threads| && Attending(s.threads[j].pc);
        StaysAttending(s, s', i, j);
      }
    }
  }

  lemma {:induction false} MutexNoLostUnlock(run: seq<State>, n: nat)
    requires IsRun(run) && n < |run| && !run[0].ownerDeath
    ensures NoLostUnlock(run[n]) && !run[n].ownerDeath
  {
    if n > 0 {
      MutexNoLostUnlock(run, n - 1);
      assert StepAt(run, n - 1);
      var i: nat :| i < |run[n - 1].threads| && ThreadStep(run[n - 1], run[n], i);
      StepKeepsNoLostUnlock(run[n - 1], run[n], i);
    }
  }

  // ---------------------------------------------------------------- what a call comes to

  ghost predicate Taken(s: State) { exists j: nat :: j < |s.threads| && Holding(s.threads[j]) }

  /** Thread i is in a locking call that it began with d unmatched locks. */
  predicate Calling(s: State, i: nat, call: Call, d: int) {
    i < |s.threads| && Depth(s.threads[i]) == d
    && match s.threads[i].pc
       case CheckOwner(c) => c == call && ChecksOwner(s.kind)
       case Cas(c) => c == call
       case Wait => call == Lock
       case Asleep => call == Lock
       case Dead => call == Lock
       case LoadCount => true
       case StoreCount(_) => true
       case Claim => true
       case InitCount => true
       case _ => false
  }

  /** The calls that may end without the lock: EDEADLK, ETIMEDOUT, EOWNERDEAD, and EBUSY on a taken mutex. */
  ghost predicate MayFail(s: State, call: Call, d: int) {
    || (s.kind.ErrorCheck? && d > 0)
    || call.TimedLock?
    || s.ownerDeath
    || (call.TryLock? && Taken(s))
  }

  /** How a call that began with d unmatched locks has ended. */
  ghost predicate Ended(s: State, s': State, i: nat, call: Call, d: int) {
    && i < |s'.threads| && s'.threads[i].pc.Idle?
    && (Depth(s'.threads[i]) == d + 1 || (Depth(s'.threads[i]) == d && MayFail(s, call, d)))
    && (!s.ownerDeath && d > 0 && s.kind.Recursive? ==> Depth(s'.threads[i]) == d + 1)
    && (!s.ownerDeath && d > 0 && s.kind.ErrorCheck? ==> Depth(s'.threads[i]) == d)
  }

  lemma {:induction false} HolderTakes(s: State)
    requires Inv(s)
    ensures Taken(s) <==> s.futex != 0
    ensures s.holder >= 0 ==> Holding(s.threads[s.holder])
  {
    forall j: nat | j < |s.threads| && j != s.holder
      ensures !Holding(s.threads[j])
    {
      assert Free(s.threads[j]);
    }
  }

  /** At its compare-and-swap a trylock wins unless some thread holds the mutex. */
  lemma {:induction false} TryLockDecides(s: State, s': State, i: nat)
    requires Inv(s) && i < |s.threads| && s.threads[i].pc == Cas(TryLock) && ThreadStep(s, s', i)
    ensures if Taken(s) then s'.threads[i] == s.threads[i].(pc := Idle) else s'.threads[i].pc.Claim? && s'.futex == 1
  {
    HolderTakes(s);
  }

  lemma {:induction false} OwnStepCalling(s: State, s': State, i: nat, call: Call, d: int)
    requires Inv(s) && Calling(s, i, call, d) && ThreadStep(s, s', i) && !s.threads[i].pc.Cas?
    ensures Calling(s', i, call, d) || Ended(s, s', i, call, d)
  {
    var t := s.threads[i];
    if i != s.holder {
      assert Free(t) && (!s.ownerDeath ==> !t.pc.Dead?);
    } else {
      assert Held(t, i, s.kind, s.ownerDeath, s.owner, s.count) && (!s.ownerDeath ==> !t.pc.Dead?);
    }
  }

  lemma {:induction false} OwnCasCalling(s: State, s': State, i: nat, call: Call, d: int)
    requires Inv(s) && Calling(s, i, call, d) && ThreadStep(s, s', i) && s.threads[i].pc.Cas?
    ensures Calling(s', i, call, d) || Ended(s, s', i, call, d)
  {
    assert i != s.holder ==> Free(s.threads[i]);
    if call.TryLock? {
      TryLockDecides(s, s', i);
    }
  }

  predicate Locks(pc: Pc) {
    pc.Idle? || pc.CheckOwner? || pc.LoadCount? || pc.StoreCount? || pc.Cas? || pc.Wait? || pc.Asleep? || pc.Dead?
  }

  /** A step that is not a wake changes no other thread. */
  ghost predicate OnlyThread(s: State, s': State, j: nat)
    requires j < |s.threads|
  {
    && s'.kind == s.kind && s'.ownerDeath == s.ownerDeath
    && |s'.threads| == |s.threads| && s'.threads == s.threads[j := s'.threads[j]]
  }

  lemma {:induction false} LockStepFrame(s: State, s': State, j: nat)
    requires j < |s.threads| && ThreadStep(s, s', j) && Locks(s.threads[j].pc)
    ensures OnlyThread(s, s', j)
  {
  }

  lemma {:induction false} OtherStepFrame(s: State, s': State, j: nat)
    requires j < |s.threads| && ThreadStep(s, s', j) && !Locks(s.threads[j].pc) && !s.threads[j].pc.Wake?
    ensures OnlyThread(s, s', j)
  {
  }

  /** A step of another thread may wake thread i and does nothing else to it. */
  lemma {:induction false} OtherStepLeaves(s: State, s': State, j: nat, i: nat)
    requires j < |s.threads| && i < |s.threads| && i != j && ThreadStep(s, s', j)
    ensures i < |s'.threads|
    ensures s'.threads[i] == s.threads[i]
         || (s.threads[i].pc.Asleep? && s'.threads[i] == s.threads[i].(pc := Cas(Lock)))
  {
    if Locks(s.threads[j].pc) {
      LockStepFrame(s, s', j);
    } else if !s.threads[j].pc.Wake? {
      OtherStepFrame(s, s', j);
    }
  }

  lemma {:induction false} SameMutex(s: State, s': State, j: nat)
    requires j < |s.threads| && ThreadStep(s, s', j)
    ensures s'.kind == s.kind && s'.ownerDeath == s.ownerDeath && |s'.threads| == |s.threads|
  {
    if Locks(s.threads[j].pc) {
      LockStepFrame(s, s', j);
    } else if !s.threads[j].pc.Wake? {
      OtherStepFrame(s, s', j);
    }
  }

  lemma {:induction false} RunStepCalling(run: seq<State>, k: nat, i: nat, call: Call, d: int)
    requires IsRun(run) && k + 1 < |run| && Calling(run[k], i, call, d)
    ensures Calling(run[k + 1], i, call, d) || Ended(run[k], run[k + 1], i, call, d)
    ensures run[k + 1].kind == run[k].kind && run[k + 1].ownerDeath == run[k].ownerDeath
  {
    RunKeepsInv(run, k);
    var s, s' := run[k], run[k + 1];
    assert StepAt(run, k);
    var j: nat :| j < |s.threads| && ThreadStep(s, s', j);
    SameMutex(s, s', j);
    if j != i {
      OtherStepLeaves(s, s', j, i);
    } else if s.threads[i].pc.Cas? {
      OwnCasCalling(s, s', i, call, d);
    } else {
      OwnStepCalling(s, s', i, call, d);
    }
  }

  /**
   * A locking call over a run, from any of its states to its return: it comes back with one
   * more unmatched lock, or with as many as before in the cases in which it may fail. EBUSY
   * is only for a mutex that some thread holds while the call lasts; the holder of a
   * recursive mutex always gets one lock more, that of an error-checking one never does.
   */
  lemma {:induction false} LockCall(run: seq<State>, a: nat, b: nat, i: nat, call: Call, d: int)
    requires IsRun(run) && a < b < |run| && Calling(run[a], i, call, d)
    requires a < b && Unreturned(run, a, b - 1, i)
    requires i < |run[b].threads| && run[b].threads[i].pc.Idle?
    ensures exists k :: a <= k < b && Ended(run[k], run[b], i, call, d)
    ensures forall k :: a <= k <= b ==> run[k].kind == run[a].kind && run[k].ownerDeath == run[a].ownerDeath
    decreases b - a
  {
    RunStepCalling(run, a, i, call, d);
    if b == a + 1 {
      assert Ended(run[a], run[b], i, call, d);
    } else {
      assert !run[a + 1].threads[i].pc.Idle?;
      LockCall(run, a + 1, b, i, call, d);
    }
  }

  /** Thread i is in an unlock that it began with d unmatched locks. */
  predicate Unlocking(s: State, i: nat, d: int) {
    i < |s.threads|
    && match s.threads[i].pc
       case TestCount => Depth(s.threads[i]) == d
       case ReloadCount => Depth(s.threads[i]) == d
       case DropCount(_) => Depth(s.threads[i]) == d
       case ClearOwner => Depth(s.threads[i]) == d
       case ClearCount => Depth(s.threads[i]) == d
       case Release => Depth(s.threads[i]) == d
       case Wake => Depth(s.threads[i]) == d - 1
       case _ => false
  }

  lemma {:induction false} RunStepUnlocking(run: seq<State>, k: nat, i: nat, d: int)
    requires IsRun(run) && k + 1 < |run| && Unlocking(run[k], i, d)
    ensures i < |run[k + 1].threads|
    ensures Unlocking(run[k + 1], i, d) || (run[k + 1].threads[i].pc.Idle? && Depth(run[k + 1].threads[i]) == d - 1)
  {
    var s, s' := run[k], run[k + 1];
    assert StepAt(run, k);
    var j: nat :| j < |s.threads| && ThreadStep(s, s', j);
    SameMutex(s, s', j);
    if j != i {
      OtherStepLeaves(s, s', j, i);
    }
  }

  /** An unlock over a run takes off exactly one of the unmatched locks. */
  lemma {:induction false} UnlockCall(run: seq<State>, a: nat, b: nat, i: nat, d: int)
    requires IsRun(run) && a < b < |run| && Unlocking(run[a], i, d)
    requires a < b && Unreturned(run, a, b - 1, i)
    requires i < |run[b].threads| && run[b].threads[i].pc.Idle?
    ensures Depth(run[b].threads[i]) == d - 1
    decreases b - a
  {
    RunStepUnlocking(run, a, i, d);
    if b > a + 1 {
      assert !run[a + 1].threads[i].pc.Idle?;
      UnlockCall(run, a + 1, b, i, d);
    }
  }

  // ---------------------------------------------------------------- calls go on and end

  /** How many steps of its own a trylock or an unlock still has at most. */
  function Rank(pc: Pc): nat {
    match pc
    case CheckOwner(_) => 4
    case Cas(_) => 3
    case LoadCount => 2
    case StoreCount(_) => 1
    case Claim => 2
    case InitCount => 1
    case TestCount => 5
    case ReloadCount => 2
    case DropCount(_) => 1
    case ClearOwner => 4
    case ClearCount => 3
    case Release => 2
    case Wake => 1
    case _ => 0
  }

  /** Thread who[k] takes step k of the run. */
  ghost predicate TakenBy(run: seq<State>, who: seq<nat>, k: nat)
    requires |run| == |who| + 1
  {
    k < |who| ==> who[k] < |run[k].threads| && ThreadStep(run[k], run[k + 1], who[k])
  }

  ghost predicate Follows(run: seq<State>, who: seq<nat>) { |run| == |who| + 1 && forall k: nat :: TakenBy(run, who, k) }

  /** In a trylock or an unlock. */
  predicate Brief(s: State, i: nat) {
    i < |s.threads| && (Calling(s, i, TryLock, Depth(s.threads[i])) || Unlocking(s, i, UnlockDepth(s.threads[i])))
  }

  function UnlockDepth(t: Thread): int { if t.pc.Wake? then Depth(t) + 1 else Depth(t) }

  lemma {:induction false} RankDrops(s: State, s': State, i: nat)
    requires Brief(s, i) && ThreadStep(s, s', i) && i < |s'.threads|
    ensures s'.threads[i].pc.Idle? || Rank(s'.threads[i].pc) < Rank(s.threads[i].pc)
  {
  }

  lemma {:induction false} StaysBrief(run: seq<State>, k: nat, i: nat)
    requires IsRun(run) && k + 1 < |run| && Brief(run[k], i)
    ensures i < |run[k + 1].threads|
    ensures run[k + 1].threads[i].pc.Idle? || Brief(run[k + 1], i)
  {
    var t := run[k].threads[i];
    if Calling(run[k], i, TryLock, Depth(t)) {
      RunStepCalling(run, k, i, TryLock, Depth(t));
    } else {
      RunStepUnlocking(run, k, i, UnlockDepth(t));
    }
  }

  /** Thread i has not returned in any state from a to b. */
  ghost predicate Unreturned(run: seq<State>, a: nat, b: nat, i: nat) {
    forall k :: a <= k <= b && k < |run| ==> i < |run[k].threads| && !run[k].threads[i].pc.Idle?
  }

  lemma {:induction false} NextBrief(run: seq<State>, who: seq<nat>, k: nat, i: nat)
    requires IsRun(run) && Follows(run, who) && k < |who| && Brief(run[k], i) && Unreturned(run, k, k + 1, i)
    ensures Brief(run[k + 1], i)
    ensures Rank(run[k + 1].threads[i].pc) + (if who[k] == i then 1 else 0) <= Rank(run[k].threads[i].pc)
  {
    StaysBrief(run, k, i);
    assert TakenBy(run, who, k);
    if who[k] == i {
      RankDrops(run[k], run[k + 1], i);
    } else {
      OtherStepLeaves(run[k], run[k + 1], who[k], i);
    }
  }

  lemma {:induction false} BriefSoFar(run: seq<State>, who: seq<nat>, a: nat, b: nat, i: nat)
    requires IsRun(run) && Follows(run, who) && a <= b < |run| && Brief(run[a], i) && Unreturned(run, a, b, i)
    ensures Brief(run[b], i) && Turns(who, a, b, i) + Rank(run[b].threads[i].pc) <= Rank(run[a].threads[i].pc)
    decreases b
  {
    if a < b {
      BriefSoFar(run, who, a, b - 1, i);
      NextBrief(run, who, b - 1, i);
    }
  }

  lemma RankBounds(s: State, i: nat)
    requires Brief(s, i)
    ensures 1 <= Rank(s.threads[i].pc) <= 5
  {
  }

  /** A trylock or an unlock that has not returned has taken at most four steps of its own: it waits for nobody. */
  lemma {:induction false} BriefCallsEnd(run: seq<State>, who: seq<nat>, a: nat, b: nat, i: nat)
    requires IsRun(run) && Follows(run, who) && a <= b < |run| && Brief(run[a], i) && Unreturned(run, a, b, i)
    ensures Turns(who, a, b, i) <= 4
  {
    BriefSoFar(run, who, a, b, i);
    RankBounds(run[a], i);
    RankBounds(run[b], i);
  }

  /** In every reachable state every thread can take its next step, and on a free word every locking call can win. */
  lemma {:induction false} NobodyStuck(run: seq<State>, n: nat, i: nat)
    requires IsRun(run) && n < |run| && i < |run[n].threads|
    ensures exists s' :: ThreadStep(run[n], s', i)
    ensures run[n].threads[i].pc.Cas? && !Taken(run[n]) ==> exists s' :: ThreadStep(run[n], s', i) && CasWins(run[n], s', i)
  {
    RunKeepsInv(run, n);
    var s := run[n];
    HolderTakes(s);
    assert i != s.holder ==> Free(s.threads[i]);
    if s.threads[i].pc.Cas? {
      CasCanGoOn(s, i);
    } else if s.threads[i].pc.Wake? {
      WakeCanGoOn(s, i);
    } else {
      PlainCanGoOn(s, i);
    }
  }

  lemma {:induction false} CasCanGoOn(s: State, i: nat)
    requires Inv(s) && i < |s.threads| && s.threads[i].pc.Cas?
    ensures exists s' :: ThreadStep(s, s', i)
    ensures s.futex == 0 ==> exists s' :: ThreadStep(s, s', i) && CasWins(s, s', i)
  {
    var won := To(s, i, Claim).(futex := 1, holder := i);
    if s.futex == 0 {
      assert CasWins(s, won, i) && ThreadStep(s, won, i);
    } else {
      var failed := To(s, i, if s.threads[i].pc.call.Lock? then Wait else Idle);
      assert ThreadStep(s, failed, i);
    }
  }

  lemma {:induction false} WakeCanGoOn(s: State, i: nat)
    requires i < |s.threads| && s.threads[i].pc.Wake?
    ensures exists s' :: ThreadStep(s, s', i)
  {
    if j: nat :| j < |s.threads| && s.threads[j].pc.Asleep? {
      assert ThreadStep(s, To(To(s, j, Cas(Lock)), i, Idle), i);
    } else {
      assert ThreadStep(s, To(s, i, Idle), i);
    }
  }

  lemma {:induction false} PlainCanGoOn(s: State, i: nat)
    requires Inv(s) && i < |s.threads| && !s.threads[i].pc.Cas? && !s.threads[i].pc.Wake?
    ensures exists s' :: ThreadStep(s, s', i)
  {
    var t := s.threads[i];
    assert i != s.holder ==> Free(t);
    match t.pc
    case Idle => assert ThreadStep(s, To(s, i, if ChecksOwner(s.kind) then CheckOwner(Lock) else Cas(Lock)), i);
    case CheckOwner(call) =>
      assert ThreadStep(s, To(s, i, if s.owner != i + 1 then Cas(call) else if s.kind.Recursive? then LoadCount else Idle), i);
    case LoadCount => assert ThreadStep(s, To(s, i, StoreCount(s.count)), i);
    case StoreCount(n) => assert ThreadStep(s, Locked(s, i).(count := n + 1), i);
    case Wait => assert ThreadStep(s, To(s, i, Cas(Lock)), i);
    case Asleep => assert ThreadStep(s, To(s, i, Cas(Lock)), i);
    case Dead => assert ThreadStep(s, To(s, i, Idle).(owner := 0), i);
    case Claim => assert ThreadStep(s, (if s.kind.Recursive? then To(s, i, InitCount) else Locked(s, i)).(owner := i + 1), i);
    case InitCount => assert ThreadStep(s, Locked(s, i).(count := 1), i);
    case TestCount => assert ThreadStep(s, To(s, i, if s.count > 1 then ReloadCount else ClearOwner), i);
    case ReloadCount => assert ThreadStep(s, To(s, i, DropCount(s.count)), i);
    case DropCount(n) => assert ThreadStep(s, Unlocked(s, i, Idle).(count := n - 1), i);
    case ClearOwner => assert ThreadStep(s, To(s, i, if s.kind.Recursive? then ClearCount else Release).(owner := 0), i);
    case ClearCount => assert ThreadStep(s, To(s, i, Release).(count := 0), i);
    case Release => assert ThreadStep(s, Unlocked(s, i, Wake).(futex := 0, holder := -1), i);
  }
}
