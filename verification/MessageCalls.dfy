/**
 * What each message queue call means to its caller: when it succeeds, which error it gives
 * otherwise, what it changes, and in which order messages come out by the priorities they
 * were sent with.
 */
module MessageCalls {

  import opened Octets
  import opened MessageList
  import opened MessageQueue

  predicate IsOpen(s: State, d: int) { 0 <= d < |s.descs| && s.descs[d].active }

  /** The queue of an open descriptor. */
  function QueueOf(s: State, d: int): nat
    requires IsOpen(s, d)
  {
    s.descs[d].queue
  }

  lemma {:induction false} OpenHasQueue(s: State, d: int)
    requires Inv(s)
    ensures IsOpen(s, d) <==> !BadDesc(s, d)
    ensures IsOpen(s, d) ==> QueueOf(s, d) < MQ_MAX && s.pool[QueueOf(s, d)].active && QueueInv(s.pool[QueueOf(s, d)])
  {
    if IsOpen(s, d) {
      assert DescInv(s, d);
    }
  }

  // ---------------------------------------------------------------- send

  /** The caller has done its part: an open, writable descriptor and a message the queue takes. */
  predicate MaySend(s: State, d: int, buf: Buffer)
  {
    && IsOpen(s, d) && buf.Data? && !s.descs[d].access.RdOnly?
    && QueueOf(s, d) < |s.pool| && |buf.bytes| <= s.pool[QueueOf(s, d)].msgsize
  }

  /** Queue q has got the message m; nothing else about queues, descriptors and receipts has changed. */
  ghost predicate Gained(s: State, s': State, q: nat, m: Msg)
    requires q < |s.pool|
  {
    && |s'.pool| == |s.pool|
    && multiset(s'.pool[q].msgs) == multiset(s.pool[q].msgs) + multiset{m} && Ordered(s'.pool[q].msgs)
    && s'.pool == s.pool[q := s.pool[q].(msgs := s'.pool[q].msgs, curmsgs := |s'.pool[q].msgs|)]
    && s'.descs == s.descs && s'.received == s.received && s'.clock == s.clock + 1
  }

  lemma {:induction false} PutMeans(s: State, q: nat, bytes: seq<byte>, prio: nat)
    requires Inv(s) && q < MQ_MAX && s.pool[q].active && |bytes| <= s.pool[q].msgsize
    ensures var (s', r) := PutMsg(s, q, bytes, prio);
            && (r == Ok(0) <==> |s.pool[q].msgs| < s.pool[q].maxmsg)
            && (r == Ok(0) ==> Gained(s, s', q, Msg(bytes, prio, s.clock)))
            && (r != Ok(0) ==> s' == s && r == if s.pool[q].nonblock then Failed(EAGAIN) else Blocks)
  {
    var (s', r) := PutMsg(s, q, bytes, prio);
    assert QueueInv(s.pool[q]);
    PutKeepsInv(s, q, bytes, prio);
    assert QueueInv(s'.pool[q]);
    InsertContents(s.pool[q].msgs, Msg(bytes, prio, s.clock));
  }

  /**
   * mq_send succeeds exactly on an open writable descriptor, with data that fits and a queue
   * with room; then exactly the message with the given bytes and priority has come into that
   * descriptor's queue. Otherwise nothing has changed.
   */
  lemma {:induction false} SendMeans(s: State, d: int, buf: Buffer, prio: nat)
    requires Inv(s)
    ensures var (s', r) := Send(s, d, buf, prio);
            && (r == Ok(0) <==> MaySend(s, d, buf) && |s.pool[QueueOf(s, d)].msgs| < s.pool[QueueOf(s, d)].maxmsg)
            && (r == Ok(0) ==> Gained(s, s', QueueOf(s, d), Msg(buf.bytes, prio, s.clock)))
            && (r != Ok(0) ==> s' == s)
            && (MaySend(s, d, buf) && r != Ok(0) ==> r == if s.pool[QueueOf(s, d)].nonblock then Failed(EAGAIN) else Blocks)
            && (!IsOpen(s, d) ==> r == Failed(EBADF))
  {
    OpenHasQueue(s, d);
    if MaySend(s, d, buf) {
      PutMeans(s, QueueOf(s, d), buf.bytes, prio);
    }
  }

  /** Which error a caller gets that has not done its part. */
  lemma {:induction false} SendErrors(s: State, d: int, buf: Buffer, prio: nat)
    requires Inv(s) && IsOpen(s, d)
    ensures QueueOf(s, d) < |s.pool|
    ensures var r := Send(s, d, buf, prio).1; var q := s.pool[QueueOf(s, d)];
            && (r == Failed(EINVAL) <==> buf.NullPtr?)
            && (r == Failed(EMSGSIZE) <==> buf.Data? && |buf.bytes| > q.msgsize)
            && (r == Failed(EBADF) <==> buf.Data? && |buf.bytes| <= q.msgsize && s.descs[d].access.RdOnly?)
  {
    OpenHasQueue(s, d);
  }

  // ---------------------------------------------------------------- receive

  predicate MayReceive(s: State, d: int, room: Room) { IsOpen(s, d) && room.Room? && !s.descs[d].access.WrOnly? }

  /** m must leave before every other message of the queue. */
  predicate IsNext(msgs: seq<Msg>, m: Msg) {
    m in msgs && forall i :: 0 <= i < |msgs| ==> msgs[i] == m || Before(m, msgs[i])
  }

  /** Queue q has lost the message m, which has been received; no other queue and no descriptor has changed. */
  ghost predicate Yielded(s: State, s': State, q: nat, m: Msg)
    requires q < |s.pool|
  {
    && |s'.pool| == |s.pool|
    && multiset(s.pool[q].msgs) == multiset(s'.pool[q].msgs) + multiset{m} && Ordered(s'.pool[q].msgs)
    && s'.pool == s.pool[q := s.pool[q].(msgs := s'.pool[q].msgs, curmsgs := |s'.pool[q].msgs|)]
    && s'.descs == s.descs && s'.clock == s.clock && s'.received == s.received + [m.stamp]
  }

  lemma {:induction false} FirstIsNext(msgs: seq<Msg>)
    requires Ordered(msgs) && msgs != []
    ensures IsNext(msgs, msgs[0])
    ensures multiset(msgs) == multiset(msgs[1..]) + multiset{msgs[0]} && Ordered(msgs[1..])
  {
    assert msgs == [msgs[0]] + msgs[1..];
    forall i, j | 0 <= i < j < |msgs[1..]|
      ensures Before(msgs[1..][i], msgs[1..][j])
    {
      assert msgs[1..][i] == msgs[i + 1] && msgs[1..][j] == msgs[j + 1];
    }
  }

  lemma {:induction false} TakeMeans(s: State, q: nat, len: nat)
    requires Inv(s) && q < MQ_MAX && s.pool[q].active
    ensures var (s', r) := TakeMsg(s, q, len);
            && (r.Message? ==> IsNext(s.pool[q].msgs, r.msg) && |r.msg.data| <= len && Yielded(s, s', q, r.msg))
            && (!r.Message? ==> s' == s)
            && (s.pool[q].msgs == [] ==> r == if s.pool[q].nonblock then Failed(EAGAIN) else Blocks)
            && (s.pool[q].msgs != [] && !r.Message? ==>
                  r == Failed(EMSGSIZE) && exists m :: IsNext(s.pool[q].msgs, m) && |m.data| > len)
  {
    assert QueueInv(s.pool[q]);
    if s.pool[q].msgs != [] {
      FirstIsNext(s.pool[q].msgs);
    }
  }

  /**
   * mq_receive of a caller that has done its part returns the next message of that
   * descriptor's queue and takes it out; with none it waits or gives EAGAIN, and when the
   * caller's buffer is too small for it EMSGSIZE. Only the notification changes then.
   */
  lemma {:induction false} ReceiveMeans(s: State, d: int, room: Room)
    requires Inv(s) && MayReceive(s, d, room)
    ensures QueueOf(s, d) < |s.pool| && QueueOf(s, d) < |s.notify|
    ensures var (s', r) := Receive(s, d, room); var q := QueueOf(s, d); var msgs := s.pool[q].msgs;
            && (r.Message? ==> IsNext(msgs, r.msg) && |r.msg.data| <= room.len && Yielded(s, s', q, r.msg))
            && (!r.Message? ==> s' == s.(notify := s'.notify))
            && s'.notify == s.notify[q := s.notify[q].(registered := false, pid := 0)]
            && (msgs == [] ==> r == if s.pool[q].nonblock then Failed(EAGAIN) else Blocks)
            && (msgs != [] && !r.Message? ==> r == Failed(EMSGSIZE) && exists m :: IsNext(msgs, m) && |m.data| > room.len)
  {
    OpenHasQueue(s, d);
    DeregisterKeepsInv(s, QueueOf(s, d));
    TakeMeans(Deregistered(s, QueueOf(s, d)), QueueOf(s, d), room.len);
  }

  lemma {:induction false} ReceiveErrors(s: State, d: int, room: Room)
    requires Inv(s) && !MayReceive(s, d, room)
    ensures Receive(s, d, room) == (s, Failed(if IsOpen(s, d) && room.NoBuffer? then EINVAL else EBADF))
  {
    OpenHasQueue(s, d);
  }

  // ---------------------------------------------------------------- open and unlink

  /** Some linked queue has the name. */
  predicate Taken(s: State, name: string) { exists q :: 0 <= q < |s.pool| && Named(s.pool[q], name) }

  predicate GoodCall(name: string, fl: Flags) { NameValid(name) && (fl.excl ==> fl.creat) }

  predicate BadAttr(attr: Attr) { attr.Attr? && (attr.maxmsg <= 0 || attr.msgsize <= 0) }

  /** A fresh queue has the sizes asked for, or 10 messages of 8192 bytes. */
  predicate HasAttr(q: Queue, attr: Attr, nonblock: bool) {
    match attr
    case Default => q.maxmsg == 10 && q.msgsize == 8192 && q.nonblock == nonblock
    case Attr(maxmsg, msgsize, blockless) => q.maxmsg == maxmsg && q.msgsize == msgsize && q.nonblock == (blockless || nonblock)
  }

  /** Descriptor d is new and names queue q with the access asked for; no other descriptor and no other queue has changed. */
  ghost predicate Opened(s: State, s': State, d: int, q: nat, access: Access) {
    && 0 <= d < |s.descs| && !s.descs[d].active && s'.descs == s.descs[d := Desc(true, q, access)]
    && q < |s.pool| && |s'.pool| == |s.pool| && s'.pool == s.pool[q := s'.pool[q]]
    && s'.clock == s.clock && s'.received == s.received && s'.fired == s.fired
  }

  ghost predicate Attached(s: State, s': State, d: int, q: nat, name: string, fl: Flags) {
    && Opened(s, s', d, q, fl.access) && Named(s.pool[q], name)
    && s'.pool[q] == s.pool[q].(refcount := s.pool[q].refcount + 1, nonblock := s.pool[q].nonblock || fl.nonblock)
  }

  ghost predicate Created(s: State, s': State, d: int, q: nat, name: string, fl: Flags, attr: Attr) {
    && Opened(s, s', d, q, fl.access) && q < |s'.notify|
    && !s.pool[q].active && Named(s'.pool[q], name) && HasAttr(s'.pool[q], attr, fl.nonblock)
    && s'.pool[q].msgs == [] && s'.pool[q].refcount == 1 && !s'.notify[q].registered
  }

  /** mq_open of an existing name attaches to that queue and changes no more of it than its reference count and O_NONBLOCK. */
  lemma {:induction false} OpenExisting(s: State, name: string, fl: Flags, attr: Attr)
    requires Inv(s) && GoodCall(name, fl) && Taken(s, name)
    ensures var (s', r) := Open(s, name, fl, attr);
            && (fl.creat ==> r == Failed(EEXIST))
            && (!fl.creat && !r.Ok? ==> r == Failed(EMFILE) && forall d :: 0 <= d < |s.descs| ==> s.descs[d].active)
            && (!r.Ok? ==> s' == s)
            && (r.Ok? ==> exists q: nat :: Attached(s, s', r.value, q, name, fl))
  {
    var (s', r) := Open(s, name, fl, attr);
    if r.Ok? {
      assert Attached(s, s', r.value, FindName(s.pool, name, 0), name, fl);
    }
  }

  /** mq_open of a new name makes an empty queue of that name, with the attributes asked for, in a slot not in use. */
  lemma {:induction false} OpenNew(s: State, name: string, fl: Flags, attr: Attr)
    requires Inv(s) && GoodCall(name, fl) && !Taken(s, name)
    ensures var (s', r) := Open(s, name, fl, attr);
            && (!fl.creat ==> s' == s && r == Failed(ENOENT))
            && (r.Ok? ==> fl.creat && !BadAttr(attr) && exists q: nat :: Created(s, s', r.value, q, name, fl, attr))
  {
    var (s', r) := Open(s, name, fl, attr);
    assert FindName(s.pool, name, 0) == |s.pool|;
    if r.Ok? {
      assert Created(s, s', r.value, FindFree(s.pool, 0), name, fl, attr);
    }
  }

  /** And it fails only for want of a slot, of good attributes or of a descriptor. */
  lemma {:induction false} OpenNewFails(s: State, name: string, fl: Flags, attr: Attr)
    requires Inv(s) && GoodCall(name, fl) && !Taken(s, name) && fl.creat
    ensures var r := Open(s, name, fl, attr).1; var full := forall q :: 0 <= q < |s.pool| ==> s.pool[q].active;
            && (r == Failed(ENFILE) <==> full)
            && (r == Failed(EINVAL) <==> !full && BadAttr(attr))
            && (r == Failed(EMFILE) <==> !full && !BadAttr(attr) && forall d :: 0 <= d < |s.descs| ==> s.descs[d].active)
            && (r.Ok? || r in {Failed(ENFILE), Failed(EINVAL), Failed(EMFILE)})
  {
    assert FindName(s.pool, name, 0) == |s.pool|;
  }

  lemma {:induction false} OpenBadCall(s: State, name: string, fl: Flags, attr: Attr)
    requires Inv(s) && !GoodCall(name, fl)
    ensures Open(s, name, fl, attr) == (s, Failed(EINVAL))
  {
  }

  /** Queue q had the name. It is unlinked and otherwise as it was while somebody has it open, and gone if nobody has. */
  ghost predicate Unnamed(s: State, s': State, q: nat, name: string) {
    && q < |s.pool| && Named(s.pool[q], name) && |s'.pool| == |s.pool| && s'.pool == s.pool[q := s'.pool[q]]
    && if s.pool[q].refcount == 0 then !s'.pool[q].active else s'.pool[q] == s.pool[q].(unlinked := true)
  }

  /** mq_unlink succeeds exactly on the name of a linked queue, and then no linked queue has it. */
  lemma {:induction false} UnlinkMeans(s: State, name: string)
    requires Inv(s)
    ensures var (s', r) := Unlink(s, name);
            && (r == Ok(0) <==> NameValid(name) && Taken(s, name))
            && (r == Ok(0) ==> !Taken(s', name) && s'.descs == s.descs && exists q: nat :: Unnamed(s, s', q, name))
            && (r != Ok(0) ==> s' == s && r == Failed(if NameValid(name) then ENOENT else EINVAL))
  {
    var (s', r) := Unlink(s, name);
    if r == Ok(0) {
      var q := FindName(s.pool, name, 0);
      assert Unnamed(s, s', q, name);
      forall p | 0 <= p < |s'.pool|
        ensures !Named(s'.pool[p], name)
      {
        assert p != q ==> (SameName(s.pool[p], s.pool[q]) ==> p == q);
      }
    } else if NameValid(name) {
      assert FindName(s.pool, name, 0) == |s.pool|;
    }
  }

  // ---------------------------------------------------------------- close and notify

  /** mq_close of an open descriptor closes it and no other, and takes the caller's own registration for its queue back. */
  lemma {:induction false} CloseMeans(s: State, d: int, pid: nat)
    requires Inv(s)
    ensures var (s', r) := Close(s, d, pid);
            && (!IsOpen(s, d) ==> s' == s && r == Failed(EBADF))
            && (IsOpen(s, d) ==>
                  && r == Ok(0) && s'.descs == s.descs[d := s.descs[d].(active := false)]
                  && QueueOf(s, d) < |s.pool| == |s'.pool| && QueueOf(s, d) < |s.notify|
                  && Left(s, s', QueueOf(s, d))
                  && s'.notify == if s.notify[QueueOf(s, d)].pid == pid
                                  then s.notify[QueueOf(s, d) := s.notify[QueueOf(s, d)].(registered := false, pid := 0)]
                                  else s.notify)
  {
    OpenHasQueue(s, d);
  }

  /** Queue q has one reference less, and is gone if that was the last one to an unlinked queue. */
  ghost predicate Left(s: State, s': State, q: nat)
    requires q < |s.pool|
  {
    && |s'.pool| == |s.pool| && s'.pool == s.pool[q := s'.pool[q]]
    && s'.pool[q].refcount == s.pool[q].refcount - 1
    && if s.pool[q].unlinked && s.pool[q].refcount == 1 then !s'.pool[q].active && s'.pool[q].msgs == []
       else s'.pool[q] == s.pool[q].(refcount := s'.pool[q].refcount)
  }

  /** mq_notify: one registration a queue, and only its own process takes it back. */
  lemma {:induction false} NotifyMeans(s: State, d: int, req: Request, pid: nat)
    requires Inv(s) && IsOpen(s, d)
    ensures QueueOf(s, d) < |s.notify|
    ensures var (s', r) := Notification(s, d, req, pid); var q := QueueOf(s, d); var was, now := s.notify[q], s'.notify;
            && s'.pool == s.pool && s'.descs == s.descs && s'.fired == s.fired
            && |now| == |s.notify| && now == s.notify[q := now[q]]
            && (req.Register? && was.registered ==> r == Failed(EBUSY) && s' == s)
            && (req.Register? && !was.registered ==> r == Ok(0) && now[q].registered && now[q].pid == pid && now[q].id == s.nextId)
            && (req.Deregister? ==> r == Ok(0) && (now[q].registered <==> was.registered && was.pid != pid))
            && (req.Deregister? && now[q].registered ==> s' == s)
  {
    OpenHasQueue(s, d);
  }

  // ---------------------------------------------------------------- by the priorities given

  /** Call c puts a message of these bytes and this priority into queue q. */
  predicate SendsTo(s: State, c: Call, q: nat, bytes: seq<byte>, prio: nat) {
    match c
    case MqSend(d, buf, p) => IsOpen(s, d) && QueueOf(s, d) == q && buf == Data(bytes) && p == prio
    case GoOnSending(p, b, pr) => p == q && b == bytes && pr == prio
    case _ => false
  }

  /** Call calls[k] takes the run from state k to the next and returns results[k]. */
  ghost predicate CalledAt(run: seq<State>, calls: seq<Call>, results: seq<Result>, k: nat)
    requires |run| == |calls| + 1 == |results| + 1
  {
    k < |calls| ==> Sized(run[k]) && (run[k + 1], results[k]) == Apply(run[k], calls[k])
  }

  ghost predicate Follows(run: seq<State>, calls: seq<Call>, results: seq<Result>) {
    |run| == |calls| + 1 == |results| + 1 && forall k: nat :: CalledAt(run, calls, results, k)
  }

  lemma {:induction false} SentIsQueued(run: seq<State>, calls: seq<Call>, results: seq<Result>, j: nat,
                                       q: nat, bytes: seq<byte>, prio: nat)
    requires IsRun(run) && Follows(run, calls, results) && j < |calls|
    requires SendsTo(run[j], calls[j], q, bytes, prio) && results[j] == Ok(0)
    ensures InQueue(run[j + 1], q, Msg(bytes, prio, run[j].clock)) && run[j + 1].clock == run[j].clock + 1
  {
    RunKeepsInv(run, j);
    assert CalledAt(run, calls, results, j);
    var s := run[j];
    match calls[j]
    case MqSend(d, buf, _) =>
      SendMeans(s, d, buf, prio);
      GainedIsQueued(s, run[j + 1], q, Msg(bytes, prio, s.clock));
    case GoOnSending(_, _, _) =>
      PutMeans(s, q, bytes, prio);
      GainedIsQueued(s, run[j + 1], q, Msg(bytes, prio, s.clock));
  }

  lemma {:induction false} GainedIsQueued(s: State, s': State, q: nat, m: Msg)
    requires q < |s.pool| && Gained(s, s', q, m)
    ensures InQueue(s', q, m)
  {
    assert m in multiset(s'.pool[q].msgs);
  }

  lemma {:induction false} ClockStep(s: State, c: Call)
    requires Inv(s)
    ensures s.clock <= Apply(s, c).0.clock
  {
    var p, n := Kinds(s, c);
  }

  lemma {:induction false} ClockGrows(run: seq<State>, j: nat, k: nat)
    requires IsRun(run) && j <= k < |run|
    ensures run[j].clock <= run[k].clock
    decreases k
  {
    if j < k {
      ClockGrows(run, j, k - 1);
      var c := CallAt(run, k - 1);
      ClockStep(run[k - 1], c);
    }
  }

  /**
   * Two sends to one queue, in this order, whose messages have both been received: the
   * first message came out first if its priority was at least the second's; and if the
   * second's was higher, that one did, unless the first had left before the second came.
   */
  lemma {:induction false} ReceivedByPriority(run: seq<State>, calls: seq<Call>, results: seq<Result>, j: nat, k: nat, n: nat,
                                             q: nat, b1: seq<byte>, p1: nat, b2: seq<byte>, p2: nat)
    requires IsRun(run) && Follows(run, calls, results) && j < k < n < |run|
    requires SendsTo(run[j], calls[j], q, b1, p1) && results[j] == Ok(0)
    requires SendsTo(run[k], calls[k], q, b2, p2) && results[k] == Ok(0)
    requires run[j].clock in run[n].received && run[k].clock in run[n].received
    ensures p1 >= p2 ==> Precedes(run[n].received, run[j].clock, run[k].clock)
    ensures p1 < p2 && InQueue(run[k + 1], q, Msg(b1, p1, run[j].clock)) ==>
              Precedes(run[n].received, run[k].clock, run[j].clock)
  {
    SentIsQueued(run, calls, results, j, q, b1, p1);
    SentIsQueued(run, calls, results, k, q, b2, p2);
    ClockGrows(run, j + 1, k);
    QueuedByPriority(run, j + 1, k + 1, n, q, Msg(b1, p1, run[j].clock), Msg(b2, p2, run[k].clock));
  }

  lemma {:induction false} QueuedByPriority(run: seq<State>, j: nat, k: nat, n: nat, q: nat, m1: Msg, m2: Msg)
    requires IsRun(run) && j <= k <= n < |run| && InQueue(run[j], q, m1) && InQueue(run[k], q, m2)
    requires m1.stamp < m2.stamp && m1.stamp in run[n].received && m2.stamp in run[n].received
    ensures m1.prio >= m2.prio ==> Precedes(run[n].received, m1.stamp, m2.stamp)
    ensures m1.prio < m2.prio && InQueue(run[k], q, m1) ==> Precedes(run[n].received, m2.stamp, m1.stamp)
  {
    if m1.prio >= m2.prio {
      ReceivedInOrder(run, j, k, n, q, m1, m2);
    } else if InQueue(run[k], q, m1) {
      ReceivedInOrder(run, k, k, n, q, m2, m1);
    }
  }
}
