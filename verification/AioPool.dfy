/**
 * The fallback I/O pool as a step system: producers in __jacl_aio_queue_fallback, workers
 * in __jacl_aio_thread_worker, any number of each and any interleaving, before shutdown.
 * Taking and releasing the pool's lock, each read or write of the ring and its indices,
 * the signal, and each read or write of a control block's state is one step.
 */
module AioPool {

  import opened Arithmetic

  /** Control blocks; 0 is the null pointer. */
  type Cb = nat

  const NULL: Cb := 0

  /** The next step of a thread; `i` numbers the accepted requests and is there for the specification. */
  datatype Pc =
    // a producer
    | Outside                      // not in the pool; next: call with some control block
    | Enter(cb: Cb)                // next: lock
    | Check(cb: Cb)                // next: compute the next tail and compare with the head
    | Put(cb: Cb, next: nat)       // next: write the slot
    | Bump(cb: Cb, next: nat)      // next: write queue_tail
    | Signal                       // next: signal the condition variable
    | Leave(ok: bool)              // next: unlock and return 0, or -1 with EAGAIN
    // a worker
    | Idle                         // next: lock
    | Test                         // next: compare head and tail
    | Asleep                       // in pthread_cond_wait, the lock released
    | Take                         // next: read the slot at the head
    | Advance(cb: Cb)              // next: write queue_head
    | Release(cb: Cb, i: nat)      // next: unlock
    | Look(cb: Cb, i: nat)         // next: read the block's state
    | Run(cb: Cb, i: nat)          // performs the request; next: store the block's state

  predicate Critical(pc: Pc) {
    pc.Check? || pc.Put? || pc.Bump? || pc.Signal? || pc.Leave? || pc.Test? || pc.Take? || pc.Advance? || pc.Release?
  }

  predicate IsWorker(pc: Pc) {
    pc.Idle? || pc.Test? || pc.Asleep? || pc.Take? || pc.Advance? || pc.Release? || pc.Look? || pc.Run?
  }

  predicate Awake(pc: Pc) { IsWorker(pc) && !pc.Asleep? }

  /** The request a worker has taken and not yet disposed of. */
  predicate InFlight(pc: Pc, cb: Cb, i: nat) { pc == Release(cb, i) || pc == Look(cb, i) || pc == Run(cb, i) }

  datatype Claim = Claim(worker: nat, cb: Cb)

  /** What became of a taken request: performed, or dropped because the block's state was not 0. */
  datatype Fate = Performed | Dropped

  /** queue, queue_head, queue_tail and queue_size. */
  datatype Queue = Queue(size: nat, ring: seq<Cb>, head: nat, tail: nat)

  /** What has happened, for the specification only. */
  datatype Log = Log(
    accepted: seq<Cb>,        // requests in the order the tail moved
    claims: seq<Claim>,       // claims[i] took request i
    fates: map<nat, Fate>,    // what became of request i
    stores: seq<nat>)         // requests whose block's state was stored

  datatype State = State(
    q: Queue,
    holder: int,              // the thread in the critical section, or -1
    pcs: seq<Pc>,
    status: map<Cb, nat>,     // __jacl_state of the blocks, 0 where absent
    log: Log)

  ghost predicate Init(s: State) {
    && s.q.size > 0 && |s.q.ring| == s.q.size && s.q.head == 0 && s.q.tail == 0 && s.holder == -1
    && (forall t :: 0 <= t < |s.pcs| ==> s.pcs[t].Outside? || s.pcs[t].Idle?)
    && s.log == Log([], [], map[], [])
  }

  // ---------------------------------------------------------------- steps

  function StatusOf(s: State, cb: Cb): nat { if cb in s.status then s.status[cb] else 0 }

  function NextSlot(s: State, i: nat): nat { if s.q.size == 0 then 0 else (i + 1) % s.q.size }

  function SlotAt(s: State, i: nat): Cb { if i < |s.q.ring| then s.q.ring[i] else NULL }

  function PutSlot(q: Queue, cb: Cb): Queue {
    if q.tail < |q.ring| then q.(ring := q.ring[q.tail := cb]) else q
  }

  function Goto(s: State, t: nat, pc: Pc): State
    requires t < |s.pcs|
  {
    s.(pcs := s.pcs[t := pc])
  }

  function Sleepers(pcs: seq<Pc>): set<nat> { set t: nat | t < |pcs| && pcs[t].Asleep? }

  /** pthread_cond_signal: at least one sleeper, if there is any, goes back to locking. */
  ghost predicate MayWake(pcs: seq<Pc>, woken: set<nat>) {
    woken <= Sleepers(pcs) && (Sleepers(pcs) != {} ==> woken != {})
  }

  function Wake(pcs: seq<Pc>, woken: set<nat>): (r: seq<Pc>)
    ensures |r| == |pcs| && forall t :: 0 <= t < |pcs| ==> r[t] == if t in woken then Idle else pcs[t]
  {
    seq(|pcs|, t requires 0 <= t < |pcs| => if t in woken then Idle else pcs[t])
  }

  /** The worker stores 1 or 2 in the control block's state. */
  function Store(s: State, t: nat, cb: Cb, i: nat, code: nat): State
    requires t < |s.pcs|
  {
    Goto(s, t, Idle).(status := s.status[cb := code],
                       log := s.log.(fates := s.log.fates[i := Performed], stores := s.log.stores + [i]))
  }

  ghost predicate ThreadStep(s: State, s': State, t: nat)
    requires t < |s.pcs|
  {
    match s.pcs[t]
    case Outside => t < |s'.pcs| && s'.pcs[t].Enter? && s' == Goto(s, t, s'.pcs[t])
    case Enter(cb) => s.holder == -1 && s' == Goto(s, t, Check(cb)).(holder := t)
    case Check(cb) =>
      var next := NextSlot(s, s.q.tail);
      s' == Goto(s, t, if next == s.q.head then Leave(false) else Put(cb, next))
    case Put(cb, next) =>
      s' == Goto(s, t, Bump(cb, next)).(q := PutSlot(s.q, cb))
    case Bump(cb, next) => s' == Goto(s, t, Signal).(q := s.q.(tail := next), log := s.log.(accepted := s.log.accepted + [cb]))
    case Signal =>
      exists woken: set<nat> :: MayWake(s.pcs, woken) && s' == s.(pcs := Wake(s.pcs, woken)[t := Leave(true)])
    case Leave(ok) => s' == Goto(s, t, Outside).(holder := -1)
    case Idle => s.holder == -1 && s' == Goto(s, t, Test).(holder := t)
    case Test => s' == if s.q.head == s.q.tail then Goto(s, t, Asleep).(holder := -1) else Goto(s, t, Take)
    case Asleep => s' == Goto(s, t, Idle)
    case Take => s' == Goto(s, t, Advance(SlotAt(s, s.q.head)))
    case Advance(cb) =>
      s' == Goto(s, t, Release(cb, |s.log.claims|))
            .(q := s.q.(head := NextSlot(s, s.q.head)), log := s.log.(claims := s.log.claims + [Claim(t, cb)]))
    case Release(cb, i) => s' == Goto(s, t, Look(cb, i)).(holder := -1)
    case Look(cb, i) =>
      s' == if cb != NULL && StatusOf(s, cb) == 0 then Goto(s, t, Run(cb, i))
            else Goto(s, t, Idle).(log := s.log.(fates := s.log.fates[i := Dropped]))
    case Run(cb, i) => s' == Store(s, t, cb, i, 1) || s' == Store(s, t, cb, i, 2)
  }

  /** The application may set the state of any control block back to 0 at any time. */
  ghost predicate Reset(s: State, s': State) {
    exists cb: Cb :: s' == Zeroed(s, cb)
  }

  function Zeroed(s: State, cb: Cb): State { s.(status := s.status[cb := 0]) }

  ghost predicate Step(s: State, s': State) {
    Reset(s, s') || exists t: nat :: t < |s.pcs| && ThreadStep(s, s', t)
  }

  /** The k-th step of a run, if it has one. */
  ghost predicate StepAt(run: seq<State>, k: nat) {
    k + 1 < |run| ==> Step(run[k], run[k + 1])
  }

  ghost predicate IsRun(run: seq<State>) {
    && |run| > 0
    && Init(run[0])
    && forall k: nat :: StepAt(run, k)
  }

  // ---------------------------------------------------------------- the invariant

  function Waiting(s: State): int { |s.log.accepted| - |s.log.claims| }

  /** The ring holds the requests accepted and not yet claimed, at most one less than its size. */
  ghost predicate Ring(s: State) {
    && s.q.size > 0 && |s.q.ring| == s.q.size
    && 0 <= Waiting(s) < s.q.size
    && s.q.head == |s.log.claims| % s.q.size && s.q.tail == |s.log.accepted| % s.q.size
    && forall i: nat :: |s.log.claims| <= i < |s.log.accepted| ==> s.q.ring[i % s.q.size] == s.log.accepted[i]
  }

  /** Requests are claimed in the order they were accepted. */
  ghost predicate Fifo(s: State) {
    && |s.log.claims| <= |s.log.accepted|
    && forall i :: 0 <= i < |s.log.claims| ==> s.log.claims[i].cb == s.log.accepted[i]
  }

  ghost predicate Lock(s: State) {
    && (s.holder == -1 || (0 <= s.holder < |s.pcs| && Critical(s.pcs[s.holder])))
    && forall t :: 0 <= t < |s.pcs| && Critical(s.pcs[t]) ==> s.holder == t
  }

  /** What the thread in the critical section knows of the ring. */
  ghost predicate Local(s: State, pc: Pc) {
    match pc
    case Put(cb, next) => next == NextSlot(s, s.q.tail) && next != s.q.head
    case Bump(cb, next) => next == NextSlot(s, s.q.tail) && next != s.q.head && SlotAt(s, s.q.tail) == cb
    case Take => s.q.head != s.q.tail
    case Advance(cb) => s.q.head != s.q.tail && SlotAt(s, s.q.head) == cb
    case _ => true
  }

  ghost predicate Locals(s: State) {
    forall t :: 0 <= t < |s.pcs| ==> Local(s, s.pcs[t])
  }

  predicate Holding(pc: Pc) { pc.Release? || pc.Look? || pc.Run? }

  /** A worker's request is the one it claimed, not yet disposed of. */
  ghost predicate Owned(s: State, t: nat, pc: Pc) {
    Holding(pc) ==> pc.i < |s.log.claims| && s.log.claims[pc.i] == Claim(t, pc.cb) && pc.i !in s.log.fates
  }

  ghost predicate Owners(s: State) {
    forall t: nat :: t < |s.pcs| ==> Owned(s, t, s.pcs[t])
  }

  /** Request i has met its fate or is with the worker that claimed it. */
  ghost predicate Disposed(s: State, i: nat)
    requires i < |s.log.claims|
  {
    var c := s.log.claims[i];
    i in s.log.fates || (c.worker < |s.pcs| && InFlight(s.pcs[c.worker], c.cb, i))
  }

  ghost predicate Fates(s: State) {
    && (forall i :: i in s.log.fates ==> i < |s.log.claims|)
    && (forall i: nat :: i < |s.log.claims| ==> Disposed(s, i))
  }

  /** The requests whose block was stored into are the performed ones, each once. */
  ghost predicate Stores(s: State) {
    && (forall k :: 0 <= k < |s.log.stores| ==> s.log.stores[k] in s.log.fates && s.log.fates[s.log.stores[k]] == Performed)
    && (forall i :: i in s.log.fates && s.log.fates[i] == Performed ==> i in s.log.stores)
    && (forall j, k :: 0 <= j < k < |s.log.stores| ==> s.log.stores[j] != s.log.stores[k])
  }

  predicate SomeWorker(pcs: seq<Pc>) { exists t :: 0 <= t < |pcs| && IsWorker(pcs[t]) }

  predicate SomeAwake(pcs: seq<Pc>) { exists t :: 0 <= t < |pcs| && Awake(pcs[t]) }

  predicate SomeSignal(pcs: seq<Pc>) { exists t :: 0 <= t < |pcs| && pcs[t].Signal? }

  /** While a request waits, a worker is awake or about to be woken. */
  ghost predicate Attended(s: State) {
    Waiting(s) > 0 && SomeWorker(s.pcs) ==> SomeAwake(s.pcs) || SomeSignal(s.pcs)
  }

  ghost predicate Inv(s: State) {
    Ring(s) && Fifo(s) && Lock(s) && Locals(s) && Owners(s) && Fates(s) && Stores(s) && Attended(s)
  }

  // ---------------------------------------------------------------- ring arithmetic

  /** Slots of requests fewer than size apart are distinct. */
  lemma SlotsDiffer(i: nat, j: nat, size: nat)
    requires 0 < size && i < j < i + size
    ensures i % size != j % size
  {
    var m := j / size - i / size;
    assert j - i == m * size + (j % size - i % size);
    Times(m, size);
  }

  lemma NextMod(i: nat, size: nat)
    requires size > 0
    ensures (i % size + 1) % size == (i + 1) % size
  {
    var q, r := i / size, i % size;
    if r + 1 < size {
      DivUnique(i + 1, q, r + 1, size);
      DivUnique(r + 1, 0, r + 1, size);
    } else {
      Successor(i, q, r, size);
      DivUnique(i + 1, q + 1, 0, size);
      DivUnique(size, 1, 0, size);
    }
  }

  lemma Successor(i: nat, q: nat, r: nat, size: nat)
    requires i == q * size + r && r + 1 == size
    ensures i + 1 == (q + 1) * size + 0
  {
  }

  /** The head meets the tail exactly when nothing waits, and the next tail exactly when the ring is full. */
  lemma RingTests(s: State)
    requires Ring(s)
    ensures s.q.head == s.q.tail <==> Waiting(s) == 0
    ensures NextSlot(s, s.q.tail) == s.q.head <==> Waiting(s) == s.q.size - 1
  {
    var c, a, n := |s.log.claims|, |s.log.accepted|, s.q.size;
    if c < a {
      SlotsDiffer(c, a, n);
    }
    NextMod(a, n);
    if a + 1 < c + n {
      SlotsDiffer(c, a + 1, n);
    } else {
      NextTurn(c, n);
    }
  }

  lemma NextTurn(c: nat, n: nat)
    requires n > 0
    ensures (c + n) % n == c % n
  {
    assert c == (c / n) * n + c % n;
    assert c + n == (c / n + 1) * n + c % n;
    DivUnique(c + n, c / n + 1, c % n, n);
  }

  // ---------------------------------------------------------------- every step keeps the invariant

  lemma InitInv(s: State)
    requires Init(s)
    ensures Inv(s)
  {
  }

  /** What a step of thread t does not do: others only wake, and the histories only grow. */
  ghost predicate Frame(s: State, s': State, t: nat)
    requires t < |s.pcs|
  {
    var pc := s.pcs[t];
    && |s'.pcs| == |s.pcs|
    && (forall u :: 0 <= u < |s.pcs| && u != t ==> s'.pcs[u] == s.pcs[u] || (s.pcs[u] == Asleep && s'.pcs[u] == Idle))
    && s.log.accepted <= s'.log.accepted && s.log.claims <= s'.log.claims && s.log.stores <= s'.log.stores
    && (forall i :: i in s.log.fates ==> i in s'.log.fates)
    && (forall i :: i in s'.log.fates ==> i in s.log.fates || ((pc.Look? || pc.Run?) && i == pc.i))
  }

  lemma StepFrame(s: State, s': State, t: nat)
    requires t < |s.pcs| && ThreadStep(s, s', t)
    ensures Frame(s, s', t)
  {
  }

  predicate Touches(pc: Pc) { pc.Put? || pc.Bump? || pc.Advance? }

  /** The ring and its indices change only in the critical section. */
  lemma RingFrame(s: State, s': State, t: nat)
    requires t < |s.pcs| && ThreadStep(s, s', t)
    ensures s'.q.size == s.q.size
    ensures !Touches(s.pcs[t]) ==>
      s'.q.ring == s.q.ring && s'.q.head == s.q.head && s'.q.tail == s.q.tail && s'.log.accepted == s.log.accepted && s'.log.claims == s.log.claims
  {
  }

  lemma PutKeepsRing(s: State, s': State, t: nat)
    requires t < |s.pcs| && ThreadStep(s, s', t) && Ring(s) && s.pcs[t].Put?
    ensures Ring(s')
  {
    forall i: nat | |s.log.claims| <= i < |s.log.accepted| ensures s'.q.ring[i % s.q.size] == s.log.accepted[i] {
      SlotsDiffer(i, |s.log.accepted|, s.q.size);
    }
  }

  lemma BumpKeepsRing(s: State, s': State, t: nat)
    requires t < |s.pcs| && ThreadStep(s, s', t) && Ring(s) && s.pcs[t].Bump? && Local(s, s.pcs[t])
    ensures Ring(s')
  {
    RingTests(s);
    NextMod(|s.log.accepted|, s.q.size);
  }

  lemma AdvanceKeepsRing(s: State, s': State, t: nat)
    requires t < |s.pcs| && ThreadStep(s, s', t) && Ring(s) && s.pcs[t].Advance? && Local(s, s.pcs[t])
    ensures Ring(s')
  {
    RingTests(s);
    NextMod(|s.log.claims|, s.q.size);
  }

  lemma KeepsRing(s: State, s': State, t: nat)
    requires t < |s.pcs| && ThreadStep(s, s', t) && Ring(s) && Locals(s)
    ensures Ring(s')
  {
    var pc := s.pcs[t];
    assert Local(s, pc);
    match pc {
      case Put(_, _) => PutKeepsRing(s, s', t);
      case Bump(_, _) => BumpKeepsRing(s, s', t);
      case Advance(_) => AdvanceKeepsRing(s, s', t);
      case _ => RingFrame(s, s', t);
    }
  }

  lemma KeepsFifo(s: State, s': State, t: nat)
    requires t < |s.pcs| && ThreadStep(s, s', t) && Ring(s) && Locals(s) && Fifo(s)
    ensures Fifo(s')
  {
    var pc := s.pcs[t];
    assert Local(s, pc);
    if pc.Advance? {
      RingTests(s);
      assert s.log.accepted[|s.log.claims|] == s.q.ring[s.q.head];
    }
  }

  lemma OwnLock(s: State, s': State, t: nat)
    requires t < |s.pcs| && ThreadStep(s, s', t) && (Critical(s.pcs[t]) ==> s.holder == t)
    ensures |s'.pcs| == |s.pcs|
    ensures if Critical(s'.pcs[t]) then s'.holder == t
            else s'.holder == if Critical(s.pcs[t]) then -1 else s.holder
    ensures Critical(s'.pcs[t]) && !Critical(s.pcs[t]) ==> s.holder == -1
  {
  }

  lemma KeepsLock(s: State, s': State, t: nat)
    requires t < |s.pcs| && ThreadStep(s, s', t) && Lock(s)
    ensures Lock(s')
  {
    OwnLock(s, s', t);
    StepFrame(s, s', t);
  }

  lemma OwnLocal(s: State, s': State, t: nat)
    requires t < |s.pcs| && ThreadStep(s, s', t) && s.q.tail < |s.q.ring| && Local(s, s.pcs[t])
    ensures |s'.pcs| == |s.pcs| && Local(s', s'.pcs[t])
  {
  }

  lemma KeepsLocals(s: State, s': State, t: nat)
    requires t < |s.pcs| && ThreadStep(s, s', t) && Ring(s) && Lock(s) && Locals(s)
    ensures Locals(s')
  {
    OwnLocal(s, s', t);
    RingFrame(s, s', t);
    StepFrame(s, s', t);
    forall u | 0 <= u < |s'.pcs| ensures Local(s', s'.pcs[u]) {
      if u != t {
        assert Local(s, s.pcs[u]);
      }
    }
  }

  lemma OwnClaim(s: State, s': State, t: nat)
    requires t < |s.pcs| && ThreadStep(s, s', t)
    ensures |s'.pcs| == |s.pcs|
    ensures Holding(s'.pcs[t]) ==>
      if s.pcs[t].Advance? then s'.pcs[t].i == |s.log.claims| && s'.log.claims == s.log.claims + [Claim(t, s'.pcs[t].cb)]
      else Holding(s.pcs[t]) && s'.pcs[t].i == s.pcs[t].i && s'.pcs[t].cb == s.pcs[t].cb
  {
  }

  lemma OwnFates(s: State, s': State, t: nat)
    requires t < |s.pcs| && ThreadStep(s, s', t)
    ensures |s'.pcs| == |s.pcs| && (Holding(s'.pcs[t]) ==> s'.log.fates == s.log.fates)
  {
  }

  lemma KeepsOwners(s: State, s': State, t: nat)
    requires t < |s.pcs| && ThreadStep(s, s', t) && Owners(s) && Fates(s)
    ensures Owners(s')
  {
    assert Owned(s, t, s.pcs[t]);
    OwnClaim(s, s', t);
    OwnFates(s, s', t);
    StepFrame(s, s', t);
    forall u: nat | u < |s'.pcs| ensures Owned(s', u, s'.pcs[u]) {
      if u != t {
        assert Owned(s, u, s.pcs[u]);
      }
    }
  }

  /** A worker's request stays with it until it has met its fate. */
  lemma OwnFlight(s: State, s': State, t: nat)
    requires t < |s.pcs| && ThreadStep(s, s', t) && Holding(s.pcs[t])
    ensures |s'.pcs| == |s.pcs|
    ensures InFlight(s'.pcs[t], s.pcs[t].cb, s.pcs[t].i) || s.pcs[t].i in s'.log.fates
  {
  }

  lemma NewClaim(s: State, s': State, t: nat)
    requires t < |s.pcs| && ThreadStep(s, s', t) && s'.log.claims != s.log.claims
    ensures |s'.pcs| == |s.pcs| && s'.pcs[t].Release?
    ensures s'.pcs[t].i == |s.log.claims| && s'.log.claims == s.log.claims + [Claim(t, s'.pcs[t].cb)]
  {
  }

  lemma KeepsFates(s: State, s': State, t: nat)
    requires t < |s.pcs| && ThreadStep(s, s', t) && Owners(s) && Fates(s)
    ensures Fates(s')
  {
    assert Owned(s, t, s.pcs[t]);
    if Holding(s.pcs[t]) {
      OwnFlight(s, s', t);
    }
    if s'.log.claims != s.log.claims {
      NewClaim(s, s', t);
    }
    StepFrame(s, s', t);
    forall i: nat | i < |s'.log.claims| ensures Disposed(s', i) {
      if i < |s.log.claims| {
        assert Disposed(s, i);
      }
    }
  }

  lemma KeepsStores(s: State, s': State, t: nat)
    requires t < |s.pcs| && ThreadStep(s, s', t) && Owners(s) && Stores(s)
    ensures Stores(s')
  {
    assert Owned(s, t, s.pcs[t]);
  }

  lemma SignalWakes(s: State, s': State, t: nat)
    requires t < |s.pcs| && ThreadStep(s, s', t) && s.pcs[t].Signal? && SomeWorker(s'.pcs)
    ensures SomeAwake(s'.pcs)
  {
    var woken: set<nat> :| MayWake(s.pcs, woken) && s' == s.(pcs := Wake(s.pcs, woken)[t := Leave(true)]);
    if woken != {} {
      var w :| w in woken;
      assert Awake(s'.pcs[w]);
    } else {
      var w :| 0 <= w < |s'.pcs| && IsWorker(s'.pcs[w]);
      assert w !in Sleepers(s.pcs);
      assert Awake(s'.pcs[w]);
    }
  }

  /** A worker falls asleep only on an empty ring. */
  lemma OwnAwake(s: State, s': State, t: nat)
    requires t < |s.pcs| && ThreadStep(s, s', t) && Ring(s) && !s.pcs[t].Signal?
    ensures |s'.pcs| == |s.pcs| && IsWorker(s'.pcs[t]) == IsWorker(s.pcs[t])
    ensures Awake(s.pcs[t]) ==> Awake(s'.pcs[t]) || (Waiting(s) == 0 && s'.log.accepted == s.log.accepted)
    ensures Waiting(s') > Waiting(s) ==> s'.pcs[t].Signal?
    ensures s.log.claims == s'.log.claims || Awake(s'.pcs[t])
  {
    RingTests(s);
  }

  lemma KeepsAttended(s: State, s': State, t: nat)
    requires t < |s.pcs| && ThreadStep(s, s', t) && Ring(s) && Attended(s)
    ensures Attended(s')
  {
    if s.pcs[t].Signal? {
      if SomeWorker(s'.pcs) {
        SignalWakes(s, s', t);
      }
    } else {
      OwnAwake(s, s', t);
      StepFrame(s, s', t);
      KeepsAwake(s, s', t);
    }
  }

  lemma KeepsAwake(s: State, s': State, t: nat)
    requires t < |s.pcs| && !s.pcs[t].Signal? && Frame(s, s', t) && Attended(s)
    requires IsWorker(s'.pcs[t]) == IsWorker(s.pcs[t])
    requires Awake(s.pcs[t]) ==> Awake(s'.pcs[t]) || (Waiting(s) == 0 && s'.log.accepted == s.log.accepted)
    requires Waiting(s') > Waiting(s) ==> s'.pcs[t].Signal?
    ensures Attended(s')
  {
    if Waiting(s') > 0 && SomeWorker(s'.pcs) && !s'.pcs[t].Signal? {
      assert SomeWorker(s.pcs) by {
        var w :| 0 <= w < |s'.pcs| && IsWorker(s'.pcs[w]);
        assert IsWorker(s.pcs[w]);
      }
      if SomeAwake(s.pcs) {
        var w :| 0 <= w < |s.pcs| && Awake(s.pcs[w]);
        assert Awake(s'.pcs[w]);
      } else {
        var w :| 0 <= w < |s.pcs| && s.pcs[w].Signal?;
        assert s'.pcs[w].Signal?;
      }
    }
  }

  lemma StepKeepsInv(s: State, s': State)
    requires Inv(s) && Step(s, s')
    ensures Inv(s')
  {
    if Reset(s, s') {
      ResetKeepsInv(s, s');
    } else {
      var t: nat :| t < |s.pcs| && ThreadStep(s, s', t);
      KeepsRing(s, s', t);
      KeepsFifo(s, s', t);
      KeepsLock(s, s', t);
      KeepsLocals(s, s', t);
      KeepsOwners(s, s', t);
      KeepsFates(s, s', t);
      KeepsStores(s, s', t);
      KeepsAttended(s, s', t);
    }
  }

  lemma ResetKeepsInv(s: State, s': State)
    requires Inv(s) && Reset(s, s')
    ensures Inv(s')
  {
    forall t | 0 <= t < |s.pcs| ensures Local(s', s'.pcs[t]) && Owned(s', t, s'.pcs[t]) {
      assert Local(s, s.pcs[t]) && Owned(s, t, s.pcs[t]);
    }
    forall i: nat | i < |s.log.claims| ensures Disposed(s', i) {
      assert Disposed(s, i);
    }
  }

  lemma {:induction false} RunKeepsInv(run: seq<State>, k: nat)
    requires IsRun(run) && k < |run|
    ensures Inv(run[k])
  {
    if k == 0 {
      InitInv(run[0]);
    } else {
      RunKeepsInv(run, k - 1);
      assert StepAt(run, k - 1);
      StepKeepsInv(run[k - 1], run[k]);
    }
  }

  // ---------------------------------------------------------------- whole runs

  lemma RunStep(run: seq<State>, k: nat, s: State, s': State)
    requires IsRun(run) && k + 1 < |run| && s == run[k] && s' == run[k + 1]
    ensures Step(s, s') && Inv(s) && Inv(s')
  {
    assert StepAt(run, k);
    RunKeepsInv(run, k);
    RunKeepsInv(run, k + 1);
  }

  /** Two workers never have the same request. */
  ghost predicate OneTaker(s: State) {
    forall t, u :: 0 <= t < u < |s.pcs| && Holding(s.pcs[t]) && Holding(s.pcs[u]) ==> s.pcs[t].i != s.pcs[u].i
  }

  /** A worker with a request has the one its claim says. */
  ghost predicate Claimants(s: State) {
    forall t :: 0 <= t < |s.pcs| && Holding(s.pcs[t]) ==>
      s.pcs[t].i < |s.log.claims| && s.log.claims[s.pcs[t].i] == Claim(t, s.pcs[t].cb)
  }

  /**
   * In every state of every run: requests have been claimed in acceptance order, each by
   * one worker, and fewer than the ring's size wait.
   */
  lemma {:induction false} PoolSafety(run: seq<State>, k: nat)
    requires IsRun(run) && k < |run|
    ensures Fifo(run[k]) && Claimants(run[k]) && OneTaker(run[k])
    ensures 0 <= Waiting(run[k]) <= run[k].q.size - 1
  {
    RunKeepsInv(run, k);
    var s := run[k];
    forall t: nat | t < |s.pcs| && Holding(s.pcs[t])
      ensures s.pcs[t].i < |s.log.claims| && s.log.claims[s.pcs[t].i] == Claim(t, s.pcs[t].cb)
    {
      assert Owned(s, t, s.pcs[t]);
    }
  }

  ghost predicate Grows(s: State, s': State) {
    s.log.accepted <= s'.log.accepted && s.log.claims <= s'.log.claims && s.log.stores <= s'.log.stores
  }

  /** Neither an acceptance nor a claim is ever taken back: a claimed request has one taker for good. */
  lemma {:induction false} HistoryGrows(run: seq<State>, j: nat, k: nat)
    requires IsRun(run) && j <= k < |run|
    ensures Grows(run[j], run[k])
    decreases k
  {
    if j < k {
      HistoryGrows(run, j, k - 1);
      var s, s' := run[k - 1], run[k];
      assert StepAt(run, k - 1);
      if !Reset(s, s') {
        var t: nat :| t < |s.pcs| && ThreadStep(s, s', t);
        StepFrame(s, s', t);
      }
    }
  }

  /** A producer is refused exactly when the ring is full, and the refusal leaves the queue alone. */
  lemma RefusedExactlyWhenFull(s: State, s': State, t: nat)
    requires Inv(s) && t < |s.pcs| && s.pcs[t].Check? && ThreadStep(s, s', t)
    ensures |s'.pcs| == |s.pcs|
    ensures s'.pcs[t] == Leave(false) <==> Waiting(s) == s.q.size - 1
    ensures s'.pcs[t] != Leave(false) ==> s'.pcs[t].Put?
    ensures s'.q.ring == s.q.ring && s'.q.head == s.q.head && s'.q.tail == s.q.tail && s'.log.accepted == s.log.accepted
  {
    RingTests(s);
  }

  ghost predicate LeavesZero(s: State, s': State, cb: Cb) { StatusOf(s, cb) == 0 && StatusOf(s', cb) != 0 }

  ghost predicate AcceptedOnce(s: State, cb: Cb) {
    forall i, j :: 0 <= i < |s.log.accepted| && 0 <= j < |s.log.accepted| && s.log.accepted[i] == cb && s.log.accepted[j] == cb ==> i == j
  }

  /** A block leaves state 0 only by the store for a request that named it. */
  lemma LeavingStores(s: State, s': State, cb: Cb)
    requires Inv(s) && Step(s, s') && LeavesZero(s, s', cb)
    ensures |s'.log.stores| == |s.log.stores| + 1
    ensures var i := s'.log.stores[|s.log.stores|]; i < |s.log.accepted| && s.log.accepted[i] == cb
  {
    if !Reset(s, s') {
      var t: nat :| t < |s.pcs| && ThreadStep(s, s', t);
      assert Owned(s, t, s.pcs[t]);
      OnlyRunStores(s, s', t, cb);
    }
  }

  lemma OnlyRunStores(s: State, s': State, t: nat, cb: Cb)
    requires t < |s.pcs| && ThreadStep(s, s', t) && LeavesZero(s, s', cb)
    ensures s.pcs[t].Run? && s.pcs[t].cb == cb && s'.log.stores == s.log.stores + [s.pcs[t].i]
  {
  }

  /** The step that takes a block out of state 0 stores for a request that names it. */
  ghost predicate StoresFor(s: State, s': State, cb: Cb, x: nat) {
    && |s.log.stores| < |s'.log.stores| && s'.log.stores[|s.log.stores|] == x
    && x < |s.log.accepted| && s.log.accepted[x] == cb
  }

  lemma LeavingAt(run: seq<State>, k: nat, cb: Cb) returns (x: nat)
    requires IsRun(run) && k + 1 < |run| && LeavesZero(run[k], run[k + 1], cb)
    ensures StoresFor(run[k], run[k + 1], cb, x)
  {
    RunStep(run, k, run[k], run[k + 1]);
    LeavingStores(run[k], run[k + 1], cb);
    x := run[k + 1].log.stores[|run[k].log.stores|];
  }

  lemma TwoStores(s0: State, s1: State, s: State, s': State, cb: Cb, x: nat, y: nat)
    requires StoresFor(s0, s1, cb, x) && StoresFor(s, s', cb, y)
    requires Grows(s0, s) && Grows(s1, s) && Grows(s, s') && Stores(s')
    ensures !AcceptedOnce(s, cb)
  {
    var a, b := |s0.log.stores|, |s.log.stores|;
    assert s'.log.stores[a] == x && s'.log.stores[b] == y && a < b;
    assert s.log.accepted[x] == cb;
  }

  /** A control block that is accepted once leaves state 0 at most once, whatever the application resets. */
  lemma {:induction false} LeavesZeroAtMostOnce(run: seq<State>, cb: Cb, j: nat, k: nat)
    requires IsRun(run) && j < k < |run| - 1
    requires AcceptedOnce(run[k], cb) && LeavesZero(run[j], run[j + 1], cb)
    ensures !LeavesZero(run[k], run[k + 1], cb)
  {
    if LeavesZero(run[k], run[k + 1], cb) {
      var x := LeavingAt(run, j, cb);
      var y := LeavingAt(run, k, cb);
      RunKeepsInv(run, k + 1);
      HistoryGrows(run, j, k);
      HistoryGrows(run, j + 1, k);
      HistoryGrows(run, k, k + 1);
      TwoStores(run[j], run[j + 1], run[k], run[k + 1], cb, x, y);
    }
  }

  /** When nothing waits and no worker has a request, every accepted request has been performed or dropped. */
  lemma {:induction false} NothingLost(run: seq<State>, k: nat, i: nat)
    requires IsRun(run) && k < |run| && i < |run[k].log.accepted|
    requires Waiting(run[k]) == 0 && forall t :: 0 <= t < |run[k].pcs| ==> !Holding(run[k].pcs[t])
    ensures i in run[k].log.fates
    ensures run[k].log.fates[i] == Performed <==> i in run[k].log.stores
  {
    RunKeepsInv(run, k);
    assert Disposed(run[k], i);
  }

  lemma SignalsHold(s: State)
    requires Lock(s) && SomeSignal(s.pcs)
    ensures s.holder != -1
  {
    var t :| 0 <= t < |s.pcs| && s.pcs[t].Signal?;
    assert Critical(s.pcs[t]);
  }

  /** With the lock free, no request waits while all the workers sleep. */
  lemma {:induction false} NothingStranded(run: seq<State>, k: nat)
    requires IsRun(run) && k < |run|
    requires run[k].holder == -1 && Waiting(run[k]) > 0 && SomeWorker(run[k].pcs)
    ensures SomeAwake(run[k].pcs)
  {
    RunKeepsInv(run, k);
    if SomeSignal(run[k].pcs) {
      SignalsHold(run[k]);
    }
  }

  // ---------------------------------------------------------------- performed or dropped

  /** Step j accepts request i, which names the block cb. */
  ghost predicate AcceptedAt(run: seq<State>, j: nat, i: nat, cb: Cb) {
    && j + 1 < |run| && |run[j].log.accepted| == i < |run[j + 1].log.accepted|
    && run[j + 1].log.accepted[i] == cb
  }

  lemma {:induction false} StillAccepted(run: seq<State>, j: nat, i: nat, cb: Cb, k: nat)
    requires IsRun(run) && AcceptedAt(run, j, i, cb) && j < k < |run|
    ensures i < |run[k].log.accepted| && run[k].log.accepted[i] == cb
  {
    HistoryGrows(run, j + 1, k);
  }

  /** A worker with request i has the block the request names. */
  lemma HolderHasBlock(s: State, t: nat, i: nat, cb: Cb)
    requires Inv(s) && t < |s.pcs| && Holding(s.pcs[t]) && s.pcs[t].i == i
    requires i < |s.log.accepted| && s.log.accepted[i] == cb
    ensures s.pcs[t].cb == cb && i !in s.log.fates
  {
    assert Owned(s, t, s.pcs[t]);
  }

  /** A step disposes of request i only by the Look or Run of the worker that has it. */
  lemma NewFate(s: State, s': State, t: nat, i: nat)
    requires t < |s.pcs| && ThreadStep(s, s', t) && i !in s.log.fates && i in s'.log.fates
    ensures (s.pcs[t].Look? || s.pcs[t].Run?) && s.pcs[t].i == i
    ensures s'.log.fates[i] == if s.pcs[t].Run? then Performed else Dropped
    ensures s.pcs[t].Look? ==> s.pcs[t].cb == NULL || StatusOf(s, s.pcs[t].cb) != 0
  {
  }

  lemma OldFate(s: State, s': State, t: nat, i: nat)
    requires Inv(s) && t < |s.pcs| && ThreadStep(s, s', t) && i in s.log.fates
    ensures i in s'.log.fates && s'.log.fates[i] == s.log.fates[i]
  {
    assert Owned(s, t, s.pcs[t]);
  }

  /** Request i is not dropped, and its block is in state 0 until it has been performed. */
  ghost predicate Promising(s: State, i: nat, cb: Cb) {
    && (i in s.log.fates ==> s.log.fates[i] == Performed)
    && (StatusOf(s, cb) == 0 || i in s.log.fates)
  }

  /** No other request names the block. */
  ghost predicate OnlyRequest(s: State, cb: Cb, i: nat) {
    forall x :: 0 <= x < |s.log.accepted| && s.log.accepted[x] == cb ==> x == i
  }

  lemma StepStaysPromising(s: State, s': State, i: nat, cb: Cb)
    requires Inv(s) && Inv(s') && Step(s, s') && cb != NULL
    requires i < |s.log.accepted| && s.log.accepted[i] == cb && OnlyRequest(s, cb, i) && Promising(s, i, cb)
    ensures Promising(s', i, cb)
  {
    if !Reset(s, s') {
      var t: nat :| t < |s.pcs| && ThreadStep(s, s', t);
      if i in s.log.fates {
        OldFate(s, s', t, i);
      } else if i in s'.log.fates {
        NewFate(s, s', t, i);
        HolderHasBlock(s, t, i, cb);
      } else if StatusOf(s', cb) != 0 {
        LeavingStores(s, s', cb);
      }
    }
  }

  lemma OnlyBefore(run: seq<State>, k: nat, cb: Cb, i: nat)
    requires IsRun(run) && k + 1 < |run| && OnlyRequest(run[k + 1], cb, i)
    ensures OnlyRequest(run[k], cb, i)
  {
    HistoryGrows(run, k, k + 1);
    forall x | 0 <= x < |run[k].log.accepted| && run[k].log.accepted[x] == cb
      ensures x == i
    {
      assert run[k + 1].log.accepted[x] == cb;
    }
  }

  lemma {:induction false} StaysPromising(run: seq<State>, j: nat, i: nat, cb: Cb, k: nat)
    requires IsRun(run) && AcceptedAt(run, j, i, cb) && j < k < |run|
    requires cb != NULL && StatusOf(run[j + 1], cb) == 0 && OnlyRequest(run[k], cb, i)
    ensures Promising(run[k], i, cb)
    decreases k
  {
    if k == j + 1 {
      FirstUndisposed(run, j, i);
    } else {
      OnlyBefore(run, k - 1, cb, i);
      StaysPromising(run, j, i, cb, k - 1);
      StillAccepted(run, j, i, cb, k - 1);
      NextPromising(run, k - 1, i, cb);
    }
  }

  lemma NextPromising(run: seq<State>, k: nat, i: nat, cb: Cb)
    requires IsRun(run) && k + 1 < |run| && cb != NULL && Promising(run[k], i, cb)
    requires i < |run[k].log.accepted| && run[k].log.accepted[i] == cb && OnlyRequest(run[k], cb, i)
    ensures Promising(run[k + 1], i, cb)
  {
    RunStep(run, k, run[k], run[k + 1]);
    StepStaysPromising(run[k], run[k + 1], i, cb);
  }

  lemma FirstUndisposed(run: seq<State>, j: nat, i: nat)
    requires IsRun(run) && j + 1 < |run| && |run[j].log.accepted| == i < |run[j + 1].log.accepted|
    ensures i !in run[j + 1].log.fates && Doomed(run[j + 1], i)
  {
    RunStep(run, j, run[j], run[j + 1]);
    NotYetDisposed(run[j], run[j + 1], i);
  }

  lemma NotYetDisposed(s: State, s': State, i: nat)
    requires Inv(s) && Step(s, s') && i == |s.log.accepted|
    ensures i !in s'.log.fates
    ensures forall t :: 0 <= t < |s'.pcs| && Holding(s'.pcs[t]) ==> s'.pcs[t].i != i || |s'.log.accepted| == i
  {
    if !Reset(s, s') {
      var t: nat :| t < |s.pcs| && ThreadStep(s, s', t);
      StepFrame(s, s', t);
      OwnClaim(s, s', t);
      assert Owned(s, t, s.pcs[t]);
      forall u: nat | u < |s'.pcs| && Holding(s'.pcs[u])
        ensures s'.pcs[u].i != i || |s'.log.accepted| == i
      {
        assert Owned(s, u, s.pcs[u]);
      }
    } else {
      forall u: nat | u < |s'.pcs| && Holding(s'.pcs[u])
        ensures s'.pcs[u].i != i
      {
        assert Owned(s, u, s.pcs[u]);
      }
    }
  }

  /**
   * A request whose block is in state 0 when it is accepted, and is accepted once, is never
   * dropped: in every later state it is still under way or has been performed.
   */
  lemma {:induction false} PerformedIfInStateZero(run: seq<State>, j: nat, i: nat, cb: Cb, k: nat)
    requires IsRun(run) && AcceptedAt(run, j, i, cb) && j < k < |run|
    requires cb != NULL && StatusOf(run[j + 1], cb) == 0 && AcceptedOnce(run[k], cb)
    ensures i in run[k].log.fates ==> run[k].log.fates[i] == Performed
  {
    StillAccepted(run, j, i, cb, k);
    StaysPromising(run, j, i, cb, k);
  }

  /** The block cannot be performed on: null, or not in state 0. */
  predicate Unfit(s: State, cb: Cb) { cb == NULL || StatusOf(s, cb) != 0 }

  /** Request i has not been performed and nobody performs it. */
  ghost predicate Doomed(s: State, i: nat) {
    && (i in s.log.fates ==> s.log.fates[i] == Dropped)
    && forall t :: 0 <= t < |s.pcs| && s.pcs[t].Run? ==> s.pcs[t].i != i
  }

  lemma StepStaysDoomed(s: State, s': State, i: nat, cb: Cb)
    requires Inv(s) && Step(s, s') && Unfit(s, cb)
    requires i < |s.log.accepted| && s.log.accepted[i] == cb && Doomed(s, i)
    ensures Doomed(s', i)
  {
    if !Reset(s, s') {
      var t: nat :| t < |s.pcs| && ThreadStep(s, s', t);
      StepFrame(s, s', t);
      if i in s.log.fates {
        OldFate(s, s', t, i);
      } else if i in s'.log.fates {
        NewFate(s, s', t, i);
      }
      if s'.pcs[t].Run? {
        BecomesRun(s, s', t);
        if s.pcs[t].i == i {
          HolderHasBlock(s, t, i, cb);
        }
      }
    }
  }

  lemma BecomesRun(s: State, s': State, t: nat)
    requires t < |s.pcs| && ThreadStep(s, s', t) && t < |s'.pcs| && s'.pcs[t].Run?
    ensures s.pcs[t].Look? && s'.pcs[t].i == s.pcs[t].i && !Unfit(s, s.pcs[t].cb)
  {
  }

  /**
   * A request whose block is null, or not in state 0 from its acceptance on, is never
   * performed: when it has met a fate it was dropped.
   */
  lemma {:induction false} DroppedIfUnfit(run: seq<State>, j: nat, i: nat, cb: Cb, k: nat)
    requires IsRun(run) && AcceptedAt(run, j, i, cb) && j < k < |run|
    requires forall m :: j < m <= k ==> Unfit(run[m], cb)
    ensures i in run[k].log.fates ==> run[k].log.fates[i] == Dropped
  {
    StaysDoomed(run, j, i, cb, k);
  }

  lemma {:induction false} StaysDoomed(run: seq<State>, j: nat, i: nat, cb: Cb, k: nat)
    requires IsRun(run) && AcceptedAt(run, j, i, cb) && j < k < |run|
    requires forall m :: j < m <= k ==> Unfit(run[m], cb)
    ensures Doomed(run[k], i)
    decreases k
  {
    if k == j + 1 {
      FirstUndisposed(run, j, i);
    } else {
      StaysDoomed(run, j, i, cb, k - 1);
      StillAccepted(run, j, i, cb, k - 1);
      NextDoomed(run, k - 1, i, cb);
    }
  }

  lemma NextDoomed(run: seq<State>, k: nat, i: nat, cb: Cb)
    requires IsRun(run) && k + 1 < |run| && Unfit(run[k], cb) && Doomed(run[k], i)
    requires i < |run[k].log.accepted| && run[k].log.accepted[i] == cb
    ensures Doomed(run[k + 1], i)
  {
    RunStep(run, k, run[k], run[k + 1]);
    StepStaysDoomed(run[k], run[k + 1], i, cb);
  }

  // ---------------------------------------------------------------- both fates occur

  /** One producer and one worker over a ring of two slots; block 7 is in state v throughout. */
  function Duo(ring: seq<Cb>, head: nat, tail: nat, holder: int, producer: Pc, worker: Pc, v: nat,
               accepted: seq<Cb>, claims: seq<Claim>): State
  {
    State(Queue(2, ring, head, tail), holder, [producer, worker], map[7 := v], Log(accepted, claims, map[], []))
  }

  lemma Extend(run: seq<State>, s: State, s': State, t: nat)
    requires IsRun(run) && run[|run| - 1] == s && t < |s.pcs| && ThreadStep(s, s', t)
    ensures IsRun(run + [s'])
  {
    var r := run + [s'];
    forall k: nat
      ensures StepAt(r, k)
    {
      assert StepAt(run, k);
    }
  }

  /** A producer submits block 7. */
  lemma Entry(v: nat) returns (run: seq<State>)
    ensures IsRun(run) && run[|run| - 1] == Duo([7, 0], 0, 0, 0, Bump(7, 1), Idle, v, [], [])
  {
    var s0 := Duo([0, 0], 0, 0, -1, Outside, Idle, v, [], []);
    var s1 := Duo([0, 0], 0, 0, -1, Enter(7), Idle, v, [], []);
    var s2 := Duo([0, 0], 0, 0, 0, Check(7), Idle, v, [], []);
    var s3 := Duo([0, 0], 0, 0, 0, Put(7, 1), Idle, v, [], []);
    var s4 := Duo([7, 0], 0, 0, 0, Bump(7, 1), Idle, v, [], []);
    run := [s0];
    Extend(run, s0, s1, 0);
    run := run + [s1];
    Extend(run, s1, s2, 0);
    run := run + [s2];
    Extend(run, s2, s3, 0);
    run := run + [s3];
    Extend(run, s3, s4, 0);
    run := run + [s4];
  }

  lemma Submission(v: nat) returns (run: seq<State>)
    ensures IsRun(run) && run[|run| - 1] == Duo([7, 0], 0, 1, -1, Outside, Idle, v, [7], [])
  {
    run := Entry(v);
    var s4 := Duo([7, 0], 0, 0, 0, Bump(7, 1), Idle, v, [], []);
    var s5 := Duo([7, 0], 0, 1, 0, Signal, Idle, v, [7], []);
    var s6 := Duo([7, 0], 0, 1, 0, Leave(true), Idle, v, [7], []);
    var s7 := Duo([7, 0], 0, 1, -1, Outside, Idle, v, [7], []);
    Extend(run, s4, s5, 0);
    run := run + [s5];
    Signalled(s5, s6);
    Extend(run, s5, s6, 0);
    run := run + [s6];
    Extend(run, s6, s7, 0);
    run := run + [s7];
  }

  lemma Signalled(s: State, s': State)
    requires |s.pcs| == 2 && s.pcs[0] == Signal && s.pcs[1] == Idle && s' == Goto(s, 0, Leave(true))
    ensures ThreadStep(s, s', 0)
  {
    assert MayWake(s.pcs, {});
    assert Wake(s.pcs, {}) == s.pcs;
  }

  /** The worker takes it up to the point where it reads the block's state. */
  lemma Uptake(v: nat) returns (run: seq<State>)
    ensures IsRun(run) && run[|run| - 1] == Duo([7, 0], 1, 1, -1, Outside, Look(7, 0), v, [7], [Claim(1, 7)])
  {
    run := Submission(v);
    var s0 := Duo([7, 0], 0, 1, -1, Outside, Idle, v, [7], []);
    var s1 := Duo([7, 0], 0, 1, 1, Outside, Test, v, [7], []);
    var s2 := Duo([7, 0], 0, 1, 1, Outside, Take, v, [7], []);
    var s3 := Duo([7, 0], 0, 1, 1, Outside, Advance(7), v, [7], []);
    var s4 := Duo([7, 0], 1, 1, 1, Outside, Release(7, 0), v, [7], [Claim(1, 7)]);
    var s5 := Duo([7, 0], 1, 1, -1, Outside, Look(7, 0), v, [7], [Claim(1, 7)]);
    Extend(run, s0, s1, 1);
    run := run + [s1];
    Extend(run, s1, s2, 1);
    run := run + [s2];
    Extend(run, s2, s3, 1);
    run := run + [s3];
    Extend(run, s3, s4, 1);
    run := run + [s4];
    Extend(run, s4, s5, 1);
    run := run + [s5];
  }

  /** A block still in state 1 from an earlier request: the new request is accepted, taken and dropped. */
  lemma SomeRequestIsDropped() returns (run: seq<State>)
    ensures IsRun(run)
    ensures var s := run[|run| - 1]; s.log.accepted == [7] && s.log.fates == map[0 := Dropped] && s.log.stores == []
  {
    run := Uptake(1);
    var s := run[|run| - 1];
    var s' := Goto(s, 1, Idle).(log := s.log.(fates := s.log.fates[0 := Dropped]));
    Extend(run, s, s', 1);
    run := run + [s'];
  }

  lemma SomeRequestIsPerformed() returns (run: seq<State>)
    ensures IsRun(run)
    ensures var s := run[|run| - 1]; s.log.accepted == [7] && s.log.fates == map[0 := Performed] && StatusOf(s, 7) == 1
  {
    run := Uptake(0);
    var s := run[|run| - 1];
    var s1 := Goto(s, 1, Run(7, 0));
    Extend(run, s, s1, 1);
    run := run + [s1];
    var s2 := Store(s1, 1, 7, 0, 1);
    Extend(run, s1, s2, 1);
    run := run + [s2];
  }

  // ---------------------------------------------------------------- the ring in place

  /** The slots from head to tail, going round. */
  function Window(q: seq<Cb>, head: nat, tail: nat): seq<Cb>
    requires head < |q| && tail < |q|
  {
    if head <= tail then q[head..tail] else q[head..] + q[..tail]
  }

  lemma Wrap(i: nat, n: nat)
    requires i < n
    ensures (i + 1) % n == if i + 1 == n then 0 else i + 1
  {
    if i + 1 == n {
      DivUnique(n, 1, 0, n);
    } else {
      DivUnique(i + 1, 0, i + 1, n);
    }
  }

  lemma WindowPush(q: seq<Cb>, head: nat, tail: nat, cb: Cb, next: nat)
    requires head < |q| && tail < |q| && next == (if tail + 1 == |q| then 0 else tail + 1)
    ensures next == head <==> |Window(q, head, tail)| == |q| - 1
    ensures next != head ==> Window(q[tail := cb], head, next) == Window(q, head, tail) + [cb]
  {
  }

  lemma WindowPop(q: seq<Cb>, head: nat, tail: nat, next: nat)
    requires head < |q| && tail < |q| && head != tail && next == (if head + 1 == |q| then 0 else head + 1)
    ensures Window(q, head, tail) == [q[head]] + Window(q, next, tail)
  {
  }

  /** The ring between lock and unlock. */
  class RequestRing {
    var queue: array<Cb>
    var head: nat
    var tail: nat

    ghost predicate Valid()
      reads this
    {
      head < queue.Length && tail < queue.Length
    }

    /** The requests that wait, oldest first. */
    ghost function Contents(): seq<Cb>
      reads this, queue
      requires Valid()
    {
      Window(queue[..], head, tail)
    }

    constructor (size: nat)
      requires size > 0
      ensures Valid() && Contents() == [] && queue.Length == size && fresh(queue)
    {
      queue, head, tail := new Cb[size](_ => NULL), 0, 0;
    }

    /** The critical section of __jacl_aio_queue_fallback. */
    method Enqueue(cb: Cb) returns (ok: bool)
      requires Valid()
      modifies this, queue
      ensures Valid() && queue == old(queue)
      ensures ok <==> |old(Contents())| < queue.Length - 1
      ensures Contents() == if ok then old(Contents()) + [cb] else old(Contents())
    {
      var next := (tail + 1) % queue.Length;
      Wrap(tail, queue.Length);
      WindowPush(queue[..], head, tail, cb, next);
      if next == head {
        return false;
      }
      ghost var before := queue[..];
      queue[tail] := cb;
      assert queue[..] == before[tail := cb];
      tail := next;
      ok := true;
    }

    /** The critical section of __jacl_aio_thread_worker; it waits while the ring is empty. */
    method Dequeue() returns (cb: Cb)
      requires Valid() && Contents() != []
      modifies this
      ensures Valid() && queue == old(queue)
      ensures old(Contents()) == [cb] + Contents()
    {
      Wrap(head, queue.Length);
      WindowPop(queue[..], head, tail, (head + 1) % queue.Length);
      cb := queue[head];
      head := (head + 1) % queue.Length;
    }
  }
}
