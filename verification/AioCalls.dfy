/**
 * What one call of the fallback pool comes to: the producer's call over a whole run, the
 * worker's handling of one request, and that neither waits for anything but the lock.
 */
module AioCalls {

  import opened AioPool
  import opened Schedule

  // ---------------------------------------------------------------- the producer's call

  /** Thread t is in a call for the block cb that is not decided yet. */
  predicate Submitting(s: State, t: nat, cb: Cb) {
    t < |s.pcs|
    && match s.pcs[t]
       case Enter(c) => c == cb
       case Check(c) => c == cb
       case Put(c, _) => c == cb
       case Bump(c, _) => c == cb
       case _ => false
  }

  predicate Accepted(s: State, t: nat) { t < |s.pcs| && (s.pcs[t].Signal? || s.pcs[t] == Leave(true)) }

  predicate Refused(s: State, t: nat) { t < |s.pcs| && s.pcs[t] == Leave(false) }

  /** Step j is an acceptance by thread t. */
  predicate Accepts(run: seq<State>, j: nat, t: nat) {
    && j + 1 < |run| && t < |run[j].pcs| && t < |run[j + 1].pcs|
    && run[j].pcs[t].Bump? && run[j + 1].pcs[t].Signal?
  }

  ghost predicate RingFull(s: State) { Waiting(s) == s.q.size - 1 }

  lemma {:induction false} OthersKeep(s: State, s': State, u: nat, t: nat)
    requires u < |s.pcs| && t < |s.pcs| && u != t && ThreadStep(s, s', u) && !s.pcs[t].Asleep?
    ensures |s'.pcs| == |s.pcs| && s'.pcs[t] == s.pcs[t]
  {
    StepFrame(s, s', u);
  }

  lemma {:induction false} OwnSubmitting(s: State, s': State, t: nat, cb: Cb)
    requires Inv(s) && Submitting(s, t, cb) && ThreadStep(s, s', t)
    ensures |s'.pcs| == |s.pcs|
    ensures Submitting(s', t, cb) || (Refused(s', t) && RingFull(s)) || s'.pcs[t].Signal?
    ensures s'.pcs[t].Signal? ==> s.pcs[t].Bump? && s'.log.accepted == s.log.accepted + [cb]
    ensures !s'.pcs[t].Signal? ==> s'.log.accepted == s.log.accepted
  {
    RingTests(s);
  }

  /** What a step of the run does to a call that is not decided. */
  lemma {:induction false} NextSubmitting(run: seq<State>, k: nat, t: nat, cb: Cb)
    requires IsRun(run) && k + 1 < |run| && Submitting(run[k], t, cb)
    ensures t < |run[k + 1].pcs|
    ensures Submitting(run[k + 1], t, cb) || (Refused(run[k + 1], t) && RingFull(run[k]))
         || (run[k + 1].pcs[t].Signal? && Accepts(run, k, t) && AcceptedAt(run, k, |run[k].log.accepted|, cb))
    ensures Accepts(run, k, t) ==> run[k + 1].pcs[t].Signal?
  {
    RunStep(run, k, run[k], run[k + 1]);
    if !Reset(run[k], run[k + 1]) {
      var u: nat :| u < |run[k].pcs| && ThreadStep(run[k], run[k + 1], u);
      if u == t {
        OwnSubmitting(run[k], run[k + 1], t, cb);
      } else {
        OthersKeep(run[k], run[k + 1], u, t);
      }
    }
  }

  /** A decided call stays decided until it returns. */
  lemma {:induction false} NextDecided(run: seq<State>, k: nat, t: nat)
    requires IsRun(run) && k + 1 < |run| && (Accepted(run[k], t) || Refused(run[k], t))
    ensures t < |run[k + 1].pcs| && !Accepts(run, k, t)
    ensures run[k + 1].pcs[t].Outside? || (Accepted(run[k], t) && Accepted(run[k + 1], t)) || (Refused(run[k], t) && Refused(run[k + 1], t))
  {
    RunStep(run, k, run[k], run[k + 1]);
    if !Reset(run[k], run[k + 1]) {
      var u: nat :| u < |run[k].pcs| && ThreadStep(run[k], run[k + 1], u);
      if u != t {
        OthersKeep(run[k], run[k + 1], u, t);
      }
    }
  }

  ghost predicate NoAcceptance(run: seq<State>, a: nat, b: nat, t: nat) {
    forall j: nat :: a <= j < b ==> !Accepts(run, j, t)
  }

  /** Between a and b the thread's only acceptance is step j, of request i, for the block cb. */
  ghost predicate OneAcceptance(run: seq<State>, a: nat, b: nat, t: nat, cb: Cb, j: nat, i: nat) {
    && a <= j < b && Accepts(run, j, t) && AcceptedAt(run, j, i, cb)
    && NoAcceptance(run, a, j, t) && NoAcceptance(run, j + 1, b, t)
  }

  ghost predicate SomeAcceptance(run: seq<State>, a: nat, b: nat, t: nat, cb: Cb) {
    exists j: nat, i: nat :: OneAcceptance(run, a, b, t, cb, j, i)
  }

  lemma {:induction false} LongerAcceptance(run: seq<State>, a: nat, b: nat, t: nat, cb: Cb)
    requires SomeAcceptance(run, a, b, t, cb) && !Accepts(run, b, t)
    ensures SomeAcceptance(run, a, b + 1, t, cb)
  {
    var j: nat, i: nat :| OneAcceptance(run, a, b, t, cb, j, i);
    assert OneAcceptance(run, a, b + 1, t, cb, j, i);
  }

  /**
   * A producer's call over a run, until it returns: undecided, or accepted once and for the
   * block it was called with, or refused at a full ring with nothing accepted.
   */
  lemma {:induction false} SubmissionOutcome(run: seq<State>, a: nat, b: nat, t: nat, cb: Cb)
    requires IsRun(run) && a <= b < |run| && Submitting(run[a], t, cb)
    requires forall k :: a <= k <= b ==> t < |run[k].pcs| && !run[k].pcs[t].Outside?
    ensures (Submitting(run[b], t, cb) && NoAcceptance(run, a, b, t))
         || (Accepted(run[b], t) && SomeAcceptance(run, a, b, t, cb))
         || (Refused(run[b], t) && NoAcceptance(run, a, b, t) && exists k :: a <= k < b && RingFull(run[k]))
    decreases b
  {
    if a < b {
      SubmissionOutcome(run, a, b - 1, t, cb);
      if Submitting(run[b - 1], t, cb) {
        NextSubmitting(run, b - 1, t, cb);
        if Accepts(run, b - 1, t) {
          assert OneAcceptance(run, a, b, t, cb, b - 1, |run[b - 1].log.accepted|);
        } else if Refused(run[b], t) {
          assert RingFull(run[b - 1]);
        }
      } else {
        NextDecided(run, b - 1, t);
        if Accepted(run[b - 1], t) {
          LongerAcceptance(run, a, b - 1, t, cb);
        }
      }
    }
  }

  // ---------------------------------------------------------------- own steps

  /** Thread who[k] takes step k, or the application does when there is no such thread. */
  ghost predicate TakenBy(run: seq<State>, who: seq<nat>, k: nat)
    requires |run| == |who| + 1
  {
    k < |who| ==> if who[k] < |run[k].pcs| then ThreadStep(run[k], run[k + 1], who[k]) else Reset(run[k], run[k + 1])
  }

  ghost predicate Follows(run: seq<State>, who: seq<nat>) { |run| == |who| + 1 && forall k: nat :: TakenBy(run, who, k) }

  /** Between calls, or waiting for a request. */
  predicate AtRest(pc: Pc) { pc.Outside? || pc.Idle? || pc.Asleep? }

  /** How many steps of its own a thread takes at most until it is at rest. */
  function Rank(pc: Pc): nat {
    match pc
    case Enter(_) => 6
    case Check(_) => 5
    case Put(_, _) => 4
    case Bump(_, _) => 3
    case Signal => 2
    case Leave(_) => 1
    case Test => 6
    case Take => 5
    case Advance(_) => 4
    case Release(_, _) => 3
    case Look(_, _) => 2
    case Run(_, _) => 1
    case _ => 0
  }

  lemma {:induction false} NextBusy(run: seq<State>, who: seq<nat>, k: nat, t: nat)
    requires IsRun(run) && Follows(run, who) && k < |who| && t < |run[k].pcs| && !AtRest(run[k].pcs[t])
    ensures t < |run[k + 1].pcs|
    ensures AtRest(run[k + 1].pcs[t])
         || Rank(run[k + 1].pcs[t]) + (if who[k] == t then 1 else 0) <= Rank(run[k].pcs[t])
  {
    assert TakenBy(run, who, k);
    if who[k] == t {
      OwnBusy(run[k], run[k + 1], t);
    } else if who[k] < |run[k].pcs| {
      OthersKeep(run[k], run[k + 1], who[k], t);
    }
  }

  lemma {:induction false} OwnBusy(s: State, s': State, t: nat)
    requires t < |s.pcs| && ThreadStep(s, s', t) && !AtRest(s.pcs[t])
    ensures t < |s'.pcs| && (AtRest(s'.pcs[t]) || Rank(s'.pcs[t]) < Rank(s.pcs[t]))
  {
  }

  lemma {:induction false} BusySoFar(run: seq<State>, who: seq<nat>, a: nat, b: nat, t: nat)
    requires IsRun(run) && Follows(run, who) && a <= b < |run| && t < |run[a].pcs|
    requires forall k :: a <= k <= b && t < |run[k].pcs| ==> !AtRest(run[k].pcs[t])
    ensures t < |run[b].pcs| && Turns(who, a, b, t) + Rank(run[b].pcs[t]) <= Rank(run[a].pcs[t])
    decreases b
  {
    if a < b {
      BusySoFar(run, who, a, b - 1, t);
      NextBusy(run, who, b - 1, t);
    }
  }

  /** No thread takes six steps of its own without coming to rest. */
  lemma {:induction false} BusyThreadsRest(run: seq<State>, who: seq<nat>, a: nat, b: nat, t: nat)
    requires IsRun(run) && Follows(run, who) && a <= b < |run| && t < |run[a].pcs|
    requires Turns(who, a, b, t) >= 6
    ensures exists k :: a <= k <= b && t < |run[k].pcs| && AtRest(run[k].pcs[t])
  {
    if forall k :: a <= k <= b && t < |run[k].pcs| ==> !AtRest(run[k].pcs[t]) {
      BusySoFar(run, who, a, b, t);
      RankPositive(run[b].pcs[t]);
    }
  }

  lemma RankPositive(pc: Pc)
    ensures AtRest(pc) <==> Rank(pc) == 0
  {
  }

  /** A worker with the lock that has a request to take. */
  predicate Claiming(s: State, t: nat) {
    t < |s.pcs| && (s.pcs[t].Take? || s.pcs[t].Advance? || (s.pcs[t].Test? && s.q.head != s.q.tail))
  }

  /** Worker t has claimed a request since there were n claims. */
  ghost predicate ClaimedSince(s: State, n: nat, t: nat) {
    exists x :: n <= x < |s.log.claims| && s.log.claims[x].worker == t
  }

  lemma {:induction false} OwnClaiming(s: State, s': State, t: nat)
    requires Claiming(s, t) && ThreadStep(s, s', t)
    ensures t < |s'.pcs|
    ensures (Claiming(s', t) && Rank(s'.pcs[t]) < Rank(s.pcs[t])) || ClaimedSince(s', |s.log.claims|, t)
  {
    if s.pcs[t].Advance? {
      assert s'.log.claims[|s.log.claims|].worker == t;
    }
  }

  lemma {:induction false} OthersClaiming(s: State, s': State, u: nat, t: nat)
    requires Inv(s) && Claiming(s, t) && u < |s.pcs| && u != t && ThreadStep(s, s', u)
    ensures Claiming(s', t) && s'.pcs[t] == s.pcs[t]
  {
    assert Critical(s.pcs[t]);
    OthersKeep(s, s', u, t);
    RingFrame(s, s', u);
  }

  lemma {:induction false} NextClaiming(run: seq<State>, who: seq<nat>, k: nat, t: nat, n: nat)
    requires IsRun(run) && Follows(run, who) && k < |who| && n <= |run[k].log.claims|
    requires Claiming(run[k], t)
    ensures ClaimedSince(run[k + 1], n, t)
         || (Claiming(run[k + 1], t) && Rank(run[k + 1].pcs[t]) + (if who[k] == t then 1 else 0) <= Rank(run[k].pcs[t]))
  {
    RunKeepsInv(run, k);
    assert TakenBy(run, who, k);
    if who[k] == t {
      OwnClaiming(run[k], run[k + 1], t);
    } else if who[k] < |run[k].pcs| {
      OthersClaiming(run[k], run[k + 1], who[k], t);
    }
  }

  lemma {:induction false} StaysClaimed(run: seq<State>, k: nat, t: nat, n: nat)
    requires IsRun(run) && k + 1 < |run| && ClaimedSince(run[k], n, t)
    ensures ClaimedSince(run[k + 1], n, t)
  {
    HistoryGrows(run, k, k + 1);
    var x :| n <= x < |run[k].log.claims| && run[k].log.claims[x].worker == t;
    assert run[k + 1].log.claims[x] == run[k].log.claims[x];
  }

  lemma {:induction false} ClaimingSoFar(run: seq<State>, who: seq<nat>, a: nat, b: nat, t: nat)
    requires IsRun(run) && Follows(run, who) && a <= b < |run| && Claiming(run[a], t)
    ensures ClaimedSince(run[b], |run[a].log.claims|, t)
         || (Claiming(run[b], t) && Turns(who, a, b, t) + Rank(run[b].pcs[t]) <= Rank(run[a].pcs[t]))
    decreases b
  {
    if a < b {
      ClaimingSoFar(run, who, a, b - 1, t);
      HistoryGrows(run, a, b - 1);
      if ClaimedSince(run[b - 1], |run[a].log.claims|, t) {
        StaysClaimed(run, b - 1, t, |run[a].log.claims|);
      } else {
        NextClaiming(run, who, b - 1, t, |run[a].log.claims|);
      }
    }
  }

  /** A worker that holds the lock while a request waits has claimed one after three steps of its own. */
  lemma {:induction false} WorkIsClaimed(run: seq<State>, who: seq<nat>, a: nat, b: nat, t: nat)
    requires IsRun(run) && Follows(run, who) && a <= b < |run| && t < |run[a].pcs|
    requires run[a].pcs[t].Test? && Waiting(run[a]) > 0
    requires Turns(who, a, b, t) >= 3
    ensures ClaimedSince(run[b], |run[a].log.claims|, t)
  {
    RunKeepsInv(run, a);
    RingTests(run[a]);
    ClaimingSoFar(run, who, a, b, t);
  }

  lemma {:induction false} FlightSoFar(run: seq<State>, who: seq<nat>, a: nat, b: nat, t: nat, cb: Cb, i: nat)
    requires IsRun(run) && Follows(run, who) && a <= b < |run| && t < |run[a].pcs| && InFlight(run[a].pcs[t], cb, i)
    ensures i in run[b].log.fates
         || (t < |run[b].pcs| && InFlight(run[b].pcs[t], cb, i)
             && Turns(who, a, b, t) + Rank(run[b].pcs[t]) <= Rank(run[a].pcs[t]))
    decreases b
  {
    if a < b {
      FlightSoFar(run, who, a, b - 1, t, cb, i);
      NextFlight(run, who, b - 1, t, cb, i);
    }
  }

  lemma {:induction false} NextFlight(run: seq<State>, who: seq<nat>, k: nat, t: nat, cb: Cb, i: nat)
    requires IsRun(run) && Follows(run, who) && k < |who|
    requires i in run[k].log.fates || (t < |run[k].pcs| && InFlight(run[k].pcs[t], cb, i))
    ensures i in run[k].log.fates ==> i in run[k + 1].log.fates
    ensures i in run[k + 1].log.fates
         || (t < |run[k].pcs| && t < |run[k + 1].pcs| && InFlight(run[k].pcs[t], cb, i) && InFlight(run[k + 1].pcs[t], cb, i)
             && Rank(run[k + 1].pcs[t]) + (if who[k] == t then 1 else 0) <= Rank(run[k].pcs[t]))
  {
    RunKeepsInv(run, k);
    assert TakenBy(run, who, k);
    if who[k] < |run[k].pcs| {
      if i in run[k].log.fates {
        OldFate(run[k], run[k + 1], who[k], i);
      } else if who[k] == t {
        OwnFlight(run[k], run[k + 1], t);
      } else {
        OthersKeep(run[k], run[k + 1], who[k], t);
      }
    }
  }

  /** A claimed request has been performed or dropped after three steps of the worker that has it. */
  lemma {:induction false} TakenIsDisposed(run: seq<State>, who: seq<nat>, a: nat, b: nat, t: nat, cb: Cb, i: nat)
    requires IsRun(run) && Follows(run, who) && a <= b < |run| && t < |run[a].pcs| && InFlight(run[a].pcs[t], cb, i)
    requires Turns(who, a, b, t) >= 3
    ensures i in run[b].log.fates
  {
    FlightSoFar(run, who, a, b, t, cb, i);
  }

  /** Performing a request leaves the state of its block at 1 or 2. */
  lemma {:induction false} PerformedStores(s: State, s': State, t: nat, i: nat, cb: Cb)
    requires Inv(s) && t < |s.pcs| && ThreadStep(s, s', t) && i < |s.log.accepted| && s.log.accepted[i] == cb
    requires i !in s.log.fates && i in s'.log.fates && s'.log.fates[i] == Performed
    ensures StatusOf(s', cb) in {1, 2}
  {
    NewFate(s, s', t, i);
    HolderHasBlock(s, t, i, cb);
  }

  // ---------------------------------------------------------------- nobody is stuck

  predicate WantsLock(pc: Pc) { pc.Enter? || pc.Idle? }

  /** Every thread can take its next step, except that a thread in front of the lock needs it to be free. */
  lemma {:induction false} NobodyStuck(run: seq<State>, n: nat, t: nat)
    requires IsRun(run) && n < |run| && t < |run[n].pcs|
    requires WantsLock(run[n].pcs[t]) ==> forall u :: 0 <= u < |run[n].pcs| ==> !Critical(run[n].pcs[u])
    ensures exists s' :: ThreadStep(run[n], s', t)
  {
    RunKeepsInv(run, n);
    CanGoOn(run[n], t);
  }

  lemma {:induction false} CanGoOn(s: State, t: nat)
    requires t < |s.pcs| && Lock(s)
    requires WantsLock(s.pcs[t]) ==> forall u :: 0 <= u < |s.pcs| ==> !Critical(s.pcs[u])
    ensures exists s' :: ThreadStep(s, s', t)
  {
    match s.pcs[t]
    case Outside => assert ThreadStep(s, Goto(s, t, Enter(NULL)), t);
    case Enter(cb) => assert ThreadStep(s, Goto(s, t, Check(cb)).(holder := t), t);
    case Check(cb) =>
      var next := NextSlot(s, s.q.tail);
      assert ThreadStep(s, Goto(s, t, if next == s.q.head then Leave(false) else Put(cb, next)), t);
    case Put(cb, next) => assert ThreadStep(s, Goto(s, t, Bump(cb, next)).(q := PutSlot(s.q, cb)), t);
    case Bump(cb, next) =>
      assert ThreadStep(s, Goto(s, t, Signal).(q := s.q.(tail := next), log := s.log.(accepted := s.log.accepted + [cb])), t);
    case Signal =>
      assert MayWake(s.pcs, Sleepers(s.pcs));
      assert ThreadStep(s, s.(pcs := Wake(s.pcs, Sleepers(s.pcs))[t := Leave(true)]), t);
    case Leave(ok) => assert ThreadStep(s, Goto(s, t, Outside).(holder := -1), t);
    case Idle => assert ThreadStep(s, Goto(s, t, Test).(holder := t), t);
    case Test => assert ThreadStep(s, if s.q.head == s.q.tail then Goto(s, t, Asleep).(holder := -1) else Goto(s, t, Take), t);
    case Asleep => assert ThreadStep(s, Goto(s, t, Idle), t);
    case Take => assert ThreadStep(s, Goto(s, t, Advance(SlotAt(s, s.q.head))), t);
    case Advance(cb) =>
      assert ThreadStep(s, Goto(s, t, Release(cb, |s.log.claims|))
        .(q := s.q.(head := NextSlot(s, s.q.head)), log := s.log.(claims := s.log.claims + [Claim(t, cb)])), t);
    case Release(cb, i) => assert ThreadStep(s, Goto(s, t, Look(cb, i)).(holder := -1), t);
    case Look(cb, i) =>
      assert ThreadStep(s, if cb != NULL && StatusOf(s, cb) == 0 then Goto(s, t, Run(cb, i))
                           else Goto(s, t, Idle).(log := s.log.(fates := s.log.fates[i := Dropped])), t);
    case Run(cb, i) => assert ThreadStep(s, Store(s, t, cb, i, 1), t);
  }
}
