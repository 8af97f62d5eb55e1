/**
 * POSIX message queues over three fixed tables: a pool of queues, a table of descriptors
 * and a table of notification registrations. Each call is one atomic step on the tables,
 * given here as a function from table state to table state; module MessageTables computes
 * the same states in place.
 *
 * `clock` and `received` number the sent messages and record which were received; `id`,
 * `nextId` and `fired` do the same for notification registrations. They exist for the
 * specification only.
 */
module MessageQueue {

  import opened Octets
  import opened MessageList

  const MQ_MAX: nat := 64
  const DESC_MAX: nat := 256
  const NAME_MAX: nat := 256
  const DEFAULT_MAXMSG: int := 10
  const DEFAULT_MSGSIZE: int := 8192

  datatype Errno = EBADF | EINVAL | EMSGSIZE | EAGAIN | ENOENT | EEXIST | ENFILE | EMFILE | EBUSY

  datatype Queue = Queue(
    name: string, active: bool, unlinked: bool, refcount: int,
    maxmsg: int, msgsize: int, nonblock: bool, curmsgs: int,
    msgs: seq<Msg>)

  datatype Access = RdOnly | WrOnly | RdWr

  datatype Desc = Desc(active: bool, queue: nat, access: Access)

  datatype Notify = Notify(registered: bool, pid: nat, id: nat)

  datatype State = State(
    pool: seq<Queue>, descs: seq<Desc>, notify: seq<Notify>,
    clock: nat, received: seq<nat>,
    nextId: nat, fired: seq<nat>)

  datatype Flags = Flags(creat: bool, excl: bool, nonblock: bool, access: Access)

  datatype Attr = Default | Attr(maxmsg: int, msgsize: int, nonblock: bool)

  /** What a call returns. A call that answers Blocks waits and is not a completed step. */
  datatype Result = Ok(value: int) | Message(msg: Msg) | Failed(errno: Errno) | Blocks

  const UNUSED: Queue := Queue("", false, false, 0, 0, 0, false, 0, [])

  ghost predicate Init(s: State) {
    && |s.pool| == |s.notify| == MQ_MAX && |s.descs| == DESC_MAX
    && (forall i :: 0 <= i < MQ_MAX ==> s.pool[i] == UNUSED)
    && (forall i :: 0 <= i < DESC_MAX ==> s.descs[i] == Desc(false, 0, RdOnly))
    && (forall i :: 0 <= i < MQ_MAX ==> s.notify[i] == Notify(false, 0, 0))
    && s.clock == 0 && s.received == [] && s.nextId == 0 && s.fired == []
  }

  predicate Sized(s: State) {
    |s.pool| == |s.notify| == MQ_MAX && |s.descs| == DESC_MAX
  }

  // ---------------------------------------------------------------- table look-ups

  predicate NameValid(name: string) {
    && 2 <= |name| < NAME_MAX
    && name[0] == '/'
    && '/' !in name[1..]
  }

  predicate Named(q: Queue, name: string) { q.active && !q.unlinked && q.name == name }

  /** The first queue from i on that is linked under name; the table size if there is none. */
  function FindName(pool: seq<Queue>, name: string, i: nat): (r: nat)
    requires i <= |pool|
    ensures i <= r <= |pool|
    ensures r < |pool| ==> Named(pool[r], name)
    ensures forall j :: i <= j < r ==> !Named(pool[j], name)
    decreases |pool| - i
  {
    if i == |pool| || Named(pool[i], name) then i else FindName(pool, name, i + 1)
  }

  function FindFree(pool: seq<Queue>, i: nat): (r: nat)
    requires i <= |pool|
    ensures i <= r <= |pool|
    ensures r < |pool| ==> !pool[r].active
    ensures forall j :: i <= j < r ==> pool[j].active
    decreases |pool| - i
  {
    if i == |pool| || !pool[i].active then i else FindFree(pool, i + 1)
  }

  function FindDesc(descs: seq<Desc>, i: nat): (r: nat)
    requires i <= |descs|
    ensures i <= r <= |descs|
    ensures r < |descs| ==> !descs[r].active
    ensures forall j :: i <= j < r ==> descs[j].active
    decreases |descs| - i
  {
    if i == |descs| || !descs[i].active then i else FindDesc(descs, i + 1)
  }

  // ---------------------------------------------------------------- the calls

  function SetQueue(s: State, q: nat, queue: Queue): State
    requires q < |s.pool|
  {
    s.(pool := s.pool[q := queue])
  }

  /** __jacl_mq_alloc on slot q: sizes keep the values of the slot's last use. */
  function Allocate(s: State, q: nat, name: string): State
    requires q < |s.pool| == |s.notify|
  {
    var was := s.pool[q];
    SetQueue(s, q, Queue(name, true, false, 0, was.maxmsg, was.msgsize, false, 0, []))
      .(notify := s.notify[q := Notify(false, 0, 0)])
  }

  function WithAttr(q: Queue, attr: Attr): Queue {
    match attr
    case Default => q.(maxmsg := DEFAULT_MAXMSG, msgsize := DEFAULT_MSGSIZE)
    case Attr(maxmsg, msgsize, nonblock) => q.(maxmsg := maxmsg, msgsize := msgsize, nonblock := nonblock)
  }

  /** The end of mq_open: a descriptor for queue q. */
  function Attach(s: State, q: nat, fl: Flags): (State, Result)
    requires q < |s.pool|
  {
    var d := FindDesc(s.descs, 0);
    if d == |s.descs| then (s, Failed(EMFILE))
    else
      var was := s.pool[q];
      (SetQueue(s, q, was.(refcount := was.refcount + 1, nonblock := was.nonblock || fl.nonblock))
         .(descs := s.descs[d := Desc(true, q, fl.access)]),
       Ok(d))
  }

  function Open(s: State, name: string, fl: Flags, attr: Attr): (State, Result)
    requires Sized(s)
  {
    if !NameValid(name) || (fl.excl && !fl.creat) then (s, Failed(EINVAL))
    else
      var found := FindName(s.pool, name, 0);
      if found < |s.pool| then
        if fl.creat then (s, Failed(EEXIST)) else Attach(s, found, fl)
      else if !fl.creat then (s, Failed(ENOENT))
      else
        var q := FindFree(s.pool, 0);
        if q == |s.pool| then (s, Failed(ENFILE))
        else
          var a := Allocate(s, q, name);
          if attr.Attr? && (attr.maxmsg <= 0 || attr.msgsize <= 0) then (a, Failed(EINVAL))
          else Attach(SetQueue(a, q, WithAttr(a.pool[q], attr)), q, fl)
  }

  /** __jacl_mq_destroy. */
  function Destroyed(q: Queue): Queue { q.(active := false, msgs := []) }

  predicate BadDesc(s: State, d: int) {
    d < 0 || d >= |s.descs| || !s.descs[d].active || s.descs[d].queue >= |s.pool|
  }

  function Close(s: State, d: int, pid: nat): (State, Result)
    requires Sized(s)
  {
    if BadDesc(s, d) then (s, Failed(EBADF))
    else
      var q := s.descs[d].queue;
      var was := s.pool[q];
      var n := s.notify[q];
      var dropped := was.(refcount := was.refcount - 1);
      var s1 := s.(notify := if n.pid == pid then s.notify[q := n.(registered := false, pid := 0)] else s.notify,
                   descs := s.descs[d := s.descs[d].(active := false)]);
      (SetQueue(s1, q, if dropped.refcount == 0 && dropped.unlinked then Destroyed(dropped) else dropped), Ok(0))
  }

  function Unlink(s: State, name: string): (State, Result)
    requires Sized(s)
  {
    if !NameValid(name) then (s, Failed(EINVAL))
    else
      var q := FindName(s.pool, name, 0);
      if q == |s.pool| then (s, Failed(ENOENT))
      else
        var gone := s.pool[q].(unlinked := true);
        (SetQueue(s, q, if gone.refcount == 0 then Destroyed(gone) else gone), Ok(0))
  }

  /** __jacl_mq_do_notify: fire and forget the registration, if there is one. */
  function Fire(s: State, q: nat): State
    requires q < |s.notify|
  {
    if !s.notify[q].registered then s
    else s.(fired := s.fired + [s.notify[q].id], notify := s.notify[q := Notify(false, 0, s.notify[q].id)])
  }

  /** NullPtr is a NULL message pointer. */
  datatype Buffer = NullPtr | Data(bytes: seq<byte>)

  /** mq_send from its waiting loop on; also what a send that waited does when it goes on. */
  function PutMsg(s: State, q: nat, bytes: seq<byte>, prio: nat): (State, Result)
    requires q < |s.pool| && q < |s.notify|
  {
    var was := s.pool[q];
    if was.curmsgs >= was.maxmsg then (s, if was.nonblock then Failed(EAGAIN) else Blocks)
    else
      var s1 := Enqueued(s, q, Msg(bytes, prio, s.clock));
      (if was.curmsgs + 1 == 1 then Fire(s1, q) else s1, Ok(0))
  }

  /** The queue part of a send that goes through. */
  function Enqueued(s: State, q: nat, m: Msg): State
    requires q < |s.pool|
  {
    var was := s.pool[q];
    SetQueue(s, q, was.(msgs := Insert(was.msgs, m), curmsgs := was.curmsgs + 1)).(clock := s.clock + 1)
  }

  function Send(s: State, d: int, buf: Buffer, prio: nat): (State, Result)
    requires Sized(s)
  {
    if BadDesc(s, d) || !s.pool[s.descs[d].queue].active then (s, Failed(EBADF))
    else if buf.NullPtr? then (s, Failed(EINVAL))
    else if |buf.bytes| > s.pool[s.descs[d].queue].msgsize then (s, Failed(EMSGSIZE))
    else if s.descs[d].access.RdOnly? then (s, Failed(EBADF))
    else PutMsg(s, s.descs[d].queue, buf.bytes, prio)
  }

  /** NoBuffer is a NULL buffer pointer, `len` the size of the caller's buffer. */
  datatype Room = NoBuffer | Room(len: nat)

  /** mq_receive from its waiting loop on; also what a receive that waited does when it goes on. */
  function TakeMsg(s: State, q: nat, len: nat): (State, Result)
    requires q < |s.pool|
  {
    var was := s.pool[q];
    if was.msgs == [] then (s, if was.nonblock then Failed(EAGAIN) else Blocks)
    else
      var m := was.msgs[0];
      if len < |m.data| then (s, Failed(EMSGSIZE))
      else (SetQueue(s, q, was.(msgs := was.msgs[1..], curmsgs := was.curmsgs - 1)).(received := s.received + [m.stamp]),
            Message(m))
  }

  function Deregistered(s: State, q: nat): State
    requires q < |s.notify|
  {
    s.(notify := s.notify[q := s.notify[q].(registered := false, pid := 0)])
  }

  function Receive(s: State, d: int, room: Room): (State, Result)
    requires Sized(s)
  {
    if BadDesc(s, d) || !s.pool[s.descs[d].queue].active then (s, Failed(EBADF))
    else if room.NoBuffer? then (s, Failed(EINVAL))
    else if s.descs[d].access.WrOnly? then (s, Failed(EBADF))
    else TakeMsg(Deregistered(s, s.descs[d].queue), s.descs[d].queue, room.len)
  }

  datatype Request = Deregister | Register

  function Notification(s: State, d: int, req: Request, pid: nat): (State, Result)
    requires Sized(s)
  {
    if BadDesc(s, d) || !s.pool[s.descs[d].queue].active then (s, Failed(EBADF))
    else
      var q := s.descs[d].queue;
      var n := s.notify[q];
      match req
      case Deregister =>
        (if n.registered && n.pid == pid then s.(notify := s.notify[q := n.(registered := false, pid := 0)]) else s, Ok(0))
      case Register =>
        if n.registered then (s, Failed(EBUSY))
        else (s.(notify := s.notify[q := Notify(true, pid, s.nextId)], nextId := s.nextId + 1), Ok(0))
  }

  datatype Call =
    | MqOpen(name: string, fl: Flags, attr: Attr)
    | MqClose(d: int, pid: nat)
    | MqUnlink(name: string)
    | MqSend(d: int, buf: Buffer, prio: nat)
    | MqReceive(d: int, room: Room)
    | MqNotify(d: int, req: Request, pid: nat)
    | GoOnSending(q: nat, bytes: seq<byte>, prio: nat)   // a send that waited on queue q
    | GoOnReceiving(q: nat, len: nat)                    // a receive that waited on queue q

  /** A call that waits does so on a live queue. */
  predicate Live(s: State, q: nat) { q < |s.pool| && q < |s.notify| && s.pool[q].active }

  function Apply(s: State, c: Call): (State, Result)
    requires Sized(s)
  {
    match c
    case MqOpen(name, fl, attr) => Open(s, name, fl, attr)
    case MqClose(d, pid) => Close(s, d, pid)
    case MqUnlink(name) => Unlink(s, name)
    case MqSend(d, buf, prio) => Send(s, d, buf, prio)
    case MqReceive(d, room) => Receive(s, d, room)
    case MqNotify(d, req, pid) => Notification(s, d, req, pid)
    case GoOnSending(q, bytes, prio) =>
      if Live(s, q) && |bytes| <= s.pool[q].msgsize then PutMsg(s, q, bytes, prio) else (s, Blocks)
    case GoOnReceiving(q, len) => if Live(s, q) then TakeMsg(s, q, len) else (s, Blocks)
  }

  // ---------------------------------------------------------------- the invariant

  function NumDescs(descs: seq<Desc>, q: nat): nat {
    if descs == [] then 0
    else
      var last := descs[|descs| - 1];
      NumDescs(descs[..|descs| - 1], q) + if last.active && last.queue == q then 1 else 0
  }

  lemma {:induction false} NumDescsUpdate(descs: seq<Desc>, i: nat, d: Desc, q: nat)
    requires i < |descs|
    ensures NumDescs(descs[i := d], q)
         == NumDescs(descs, q) - (if descs[i].active && descs[i].queue == q then 1 else 0)
                               + (if d.active && d.queue == q then 1 else 0)
  {
    var n := |descs| - 1;
    if i == n {
      assert descs[i := d][..n] == descs[..n];
    } else {
      assert descs[i := d][..n] == descs[..n][i := d];
      NumDescsUpdate(descs[..n], i, d, q);
    }
  }

  lemma {:induction false} NumDescsZero(descs: seq<Desc>, q: nat)
    ensures NumDescs(descs, q) == 0 <==> forall i :: 0 <= i < |descs| ==> !(descs[i].active && descs[i].queue == q)
  {
    if descs != [] {
      NumDescsZero(descs[..|descs| - 1], q);
    }
  }

  predicate Linked(q: Queue) { q.active && !q.unlinked }

  ghost predicate RefcountInv(s: State, q: nat)
    requires q < |s.pool|
  {
    && s.pool[q].refcount == NumDescs(s.descs, q)
    && (s.pool[q].active && s.pool[q].unlinked ==> s.pool[q].refcount > 0)
  }

  ghost predicate DescInv(s: State, d: nat)
    requires d < |s.descs|
  {
    s.descs[d].active ==> s.descs[d].queue < |s.pool| && s.pool[s.descs[d].queue].active
  }

  predicate SameName(p: Queue, q: Queue) { Linked(p) && Linked(q) && p.name == q.name }

  /** At most one linked queue has a given name. */
  ghost predicate UniqueNames(pool: seq<Queue>) {
    forall p: nat, q: nat :: p < |pool| && q < |pool| && SameName(pool[p], pool[q]) ==> p == q
  }

  /** The life cycle of queues and descriptors. */
  ghost predicate Lifecycle(s: State) {
    && Sized(s)
    && (forall q: nat :: q < MQ_MAX ==> RefcountInv(s, q))
    && (forall d: nat :: d < DESC_MAX ==> DescInv(s, d))
    && UniqueNames(s.pool)
  }

  ghost predicate QueueInv(q: Queue) {
    && q.maxmsg >= 0
    && (q.active ==> q.curmsgs == |q.msgs| <= q.maxmsg)
    && (!q.active ==> q.msgs == [])
    && Ordered(q.msgs)
    && forall i :: 0 <= i < |q.msgs| ==> |q.msgs[i].data| <= q.msgsize
  }

  ghost predicate Queues(s: State) {
    forall q: nat :: q < |s.pool| ==> QueueInv(s.pool[q])
  }

  predicate Present(pool: seq<Queue>, q: nat, m: Msg) { q < |pool| && m in pool[q].msgs }

  ghost predicate StampInv(s: State, m: Msg) { m.stamp < s.clock && m.stamp !in s.received }

  ghost predicate NoDup(xs: seq<nat>) {
    forall i, j :: 0 <= i < j < |xs| ==> xs[i] != xs[j]
  }

  /** Every message present was sent once, is in one place, and has not been received. */
  ghost predicate Stamps(s: State) {
    && (forall q: nat, m: Msg :: Present(s.pool, q, m) ==> StampInv(s, m))
    && (forall p: nat, q: nat, m: Msg, n: Msg ::
          Present(s.pool, p, m) && Present(s.pool, q, n) && m.stamp == n.stamp ==> p == q && m == n)
    && NoDup(s.received)
    && (forall i :: 0 <= i < |s.received| ==> s.received[i] < s.clock)
  }

  ghost predicate RegInv(s: State, n: Notify) { n.registered ==> n.id < s.nextId && n.id !in s.fired }

  predicate SameRegistration(n: Notify, n': Notify) { n.registered && n'.registered && n.id == n'.id }

  /** Every registration in force is distinct and has not fired. */
  ghost predicate Registrations(s: State) {
    && (forall q: nat :: q < |s.notify| ==> RegInv(s, s.notify[q]))
    && (forall p: nat, q: nat ::
          p < |s.notify| && q < |s.notify| && SameRegistration(s.notify[p], s.notify[q]) ==> p == q)
    && NoDup(s.fired)
    && (forall i :: 0 <= i < |s.fired| ==> s.fired[i] < s.nextId)
  }

  ghost predicate Inv(s: State) {
    Lifecycle(s) && Queues(s) && Stamps(s) && Registrations(s)
  }

  lemma {:induction false} InitEstablishesInv(s: State)
    requires Init(s)
    ensures Inv(s)
  {
    forall q: nat | q < MQ_MAX
      ensures RefcountInv(s, q)
    {
      NumDescsZero(s.descs, q);
    }
  }

  // ---------------------------------------------------------------- frames

  /** Queues lost their messages or kept them. */
  lemma {:induction false} StampsFrame(s: State, s': State)
    requires Stamps(s) && |s'.pool| == |s.pool|
    requires s'.clock == s.clock && s'.received == s.received
    requires forall q: nat :: q < |s.pool| ==> s'.pool[q].msgs == s.pool[q].msgs || s'.pool[q].msgs == []
    ensures Stamps(s')
  {
    forall q: nat, m: Msg | Present(s'.pool, q, m)
      ensures Present(s.pool, q, m) && StampInv(s', m)
    {
      assert Present(s.pool, q, m) && StampInv(s, m);
    }
  }

  /** Registrations were dropped or kept. */
  lemma {:induction false} RegistrationsFrame(s: State, s': State)
    requires Registrations(s) && |s'.notify| == |s.notify|
    requires s'.nextId == s.nextId && s'.fired == s.fired
    requires forall q: nat :: q < |s.notify| ==> s'.notify[q] == s.notify[q] || !s'.notify[q].registered
    ensures Registrations(s')
  {
  }

  predicate SameEntry(q: Queue, q': Queue) {
    q'.name == q.name && q'.active == q.active && q'.unlinked == q.unlinked && q'.refcount == q.refcount
  }

  lemma {:induction false} TablesFrame(s: State, s': State)
    requires Lifecycle(s) && Sized(s') && s'.descs == s.descs
    requires forall q: nat :: q < |s.pool| ==> SameEntry(s.pool[q], s'.pool[q])
    ensures Lifecycle(s')
  {
    forall q: nat | q < MQ_MAX
      ensures RefcountInv(s', q)
    {
      assert RefcountInv(s, q);
    }
    forall d: nat | d < DESC_MAX
      ensures DescInv(s', d)
    {
      assert DescInv(s, d);
    }
  }

  // ---------------------------------------------------------------- every call keeps the invariant

  lemma {:induction false} AttachKeepsTables(s: State, q: nat, fl: Flags)
    requires Lifecycle(s) && q < MQ_MAX && s.pool[q].active
    ensures Lifecycle(Attach(s, q, fl).0)
  {
    var s' := Attach(s, q, fl).0;
    var d := FindDesc(s.descs, 0);
    if d < |s.descs| {
      forall p: nat | p < MQ_MAX
        ensures RefcountInv(s', p)
      {
        assert RefcountInv(s, p);
        NumDescsUpdate(s.descs, d, s'.descs[d], p);
      }
      forall e: nat | e < DESC_MAX
        ensures DescInv(s', e)
      {
        assert DescInv(s, e);
      }
    }
  }

  lemma {:induction false} AllocateKeepsTables(s: State, q: nat, name: string)
    requires Lifecycle(s) && q < MQ_MAX && !s.pool[q].active
    requires forall p: nat :: p < MQ_MAX ==> !Named(s.pool[p], name)
    ensures Lifecycle(Allocate(s, q, name))
  {
    var s' := Allocate(s, q, name);
    forall d: nat | d < DESC_MAX
      ensures DescInv(s', d) && !(s.descs[d].active && s.descs[d].queue == q)
    {
      assert DescInv(s, d);
    }
    NumDescsZero(s.descs, q);
    forall p: nat | p < MQ_MAX
      ensures RefcountInv(s', p)
    {
      assert RefcountInv(s, p);
    }
  }

  lemma {:induction false} OpenKeepsTables(s: State, name: string, fl: Flags, attr: Attr)
    requires Lifecycle(s)
    ensures Lifecycle(Open(s, name, fl, attr).0)
  {
    var found := FindName(s.pool, name, 0);
    if found < |s.pool| {
      AttachKeepsTables(s, found, fl);
    } else {
      var q := FindFree(s.pool, 0);
      if q < |s.pool| {
        AllocateKeepsTables(s, q, name);
        var a := Allocate(s, q, name);
        var b := SetQueue(a, q, WithAttr(a.pool[q], attr));
        TablesFrame(a, b);
        AttachKeepsTables(b, q, fl);
      }
    }
  }

  lemma {:induction false} OpenKeepsQueue(s: State, name: string, fl: Flags, attr: Attr, q: nat)
    requires Sized(s) && q < MQ_MAX && QueueInv(s.pool[q])
    ensures var s' := Open(s, name, fl, attr).0; Sized(s') && QueueInv(s'.pool[q]) && s'.pool[q].msgs == s.pool[q].msgs
  {
  }

  lemma {:induction false} OpenKeepsHistory(s: State, name: string, fl: Flags, attr: Attr)
    requires Sized(s)
    ensures var s' := Open(s, name, fl, attr).0;
            && |s'.pool| == |s.pool| && |s'.notify| == |s.notify|
            && (forall p: nat :: p < |s.notify| ==> s'.notify[p] == s.notify[p] || !s'.notify[p].registered)
            && s'.clock == s.clock && s'.received == s.received && s'.nextId == s.nextId && s'.fired == s.fired
  {
  }

  lemma {:induction false} OpenKeepsRest(s: State, name: string, fl: Flags, attr: Attr)
    requires Inv(s)
    ensures var s' := Open(s, name, fl, attr).0; Queues(s') && Stamps(s') && Registrations(s')
  {
    var s' := Open(s, name, fl, attr).0;
    OpenKeepsHistory(s, name, fl, attr);
    forall q: nat | q < MQ_MAX
      ensures QueueInv(s'.pool[q]) && s'.pool[q].msgs == s.pool[q].msgs
    {
      assert QueueInv(s.pool[q]);
      OpenKeepsQueue(s, name, fl, attr, q);
    }
    StampsFrame(s, s');
    RegistrationsFrame(s, s');
  }

  lemma {:induction false} CloseKeepsTables(s: State, d: int, pid: nat)
    requires Lifecycle(s)
    ensures Lifecycle(Close(s, d, pid).0)
  {
    if !BadDesc(s, d) {
      var s' := Close(s, d, pid).0;
      var q := s.descs[d].queue;
      assert DescInv(s, d) && RefcountInv(s, q);
      forall p: nat | p < MQ_MAX
        ensures RefcountInv(s', p)
      {
        assert RefcountInv(s, p);
        NumDescsUpdate(s.descs, d, s'.descs[d], p);
      }
      NumDescsZero(s'.descs, q);
      forall e: nat | e < DESC_MAX
        ensures DescInv(s', e)
      {
        assert DescInv(s, e) && RefcountInv(s', q);
      }
    }
  }

  lemma {:induction false} UnlinkKeepsTables(s: State, name: string)
    requires Lifecycle(s)
    ensures Lifecycle(Unlink(s, name).0)
  {
    var q := FindName(s.pool, name, 0);
    if NameValid(name) && q < |s.pool| {
      var s' := Unlink(s, name).0;
      assert RefcountInv(s, q);
      NumDescsZero(s.descs, q);
      forall p: nat | p < MQ_MAX
        ensures RefcountInv(s', p)
      {
        assert RefcountInv(s, p);
      }
      forall e: nat | e < DESC_MAX
        ensures DescInv(s', e)
      {
        assert DescInv(s, e);
      }
    }
  }

  lemma {:induction false} CloseUnlinkKeepRest(s: State, s': State)
    requires Inv(s) && Sized(s')
    requires s'.clock == s.clock && s'.received == s.received && s'.nextId == s.nextId && s'.fired == s.fired
    requires forall q: nat :: q < MQ_MAX ==> s'.notify[q] == s.notify[q] || !s'.notify[q].registered
    requires forall q: nat :: q < MQ_MAX ==>
      var a, b := s.pool[q], s'.pool[q];
      b.maxmsg == a.maxmsg && b.msgsize == a.msgsize && b.curmsgs == a.curmsgs
      && ((b.active == a.active && b.msgs == a.msgs) || (!b.active && b.msgs == []))
    ensures Queues(s') && Stamps(s') && Registrations(s')
  {
    forall q: nat | q < MQ_MAX
      ensures QueueInv(s'.pool[q])
    {
      assert QueueInv(s.pool[q]);
    }
    StampsFrame(s, s');
    RegistrationsFrame(s, s');
  }

  lemma {:induction false} EnqueueKeepsStamps(s: State, q: nat, m: Msg)
    requires Stamps(s) && q < |s.pool| && m.stamp == s.clock
    ensures Stamps(Enqueued(s, q, m))
  {
    var s' := Enqueued(s, q, m);
    InsertContents(s.pool[q].msgs, m);
    forall p: nat, n: Msg | Present(s'.pool, p, n)
      ensures StampInv(s', n) && (Present(s.pool, p, n) || (p == q && n == m))
    {
      assert Present(s.pool, p, n) || (p == q && n == m);
      if Present(s.pool, p, n) {
        assert StampInv(s, n);
      }
    }
  }

  lemma {:induction false} EnqueueKeepsQueue(s: State, q: nat, m: Msg)
    requires Stamps(s) && q < |s.pool| && QueueInv(s.pool[q])
    requires m.stamp == s.clock && |m.data| <= s.pool[q].msgsize
    requires s.pool[q].active && s.pool[q].curmsgs < s.pool[q].maxmsg
    ensures QueueInv(Enqueued(s, q, m).pool[q])
  {
    var was := s.pool[q];
    forall i | 0 <= i < |was.msgs|
      ensures was.msgs[i].stamp < m.stamp
    {
      assert Present(s.pool, q, was.msgs[i]);
    }
    InsertKeepsOrder(was.msgs, m);
    InsertContents(was.msgs, m);
    forall i | 0 <= i < |Insert(was.msgs, m)|
      ensures |Insert(was.msgs, m)[i].data| <= was.msgsize
    {
      assert Insert(was.msgs, m)[i] in Insert(was.msgs, m);
    }
  }

  lemma {:induction false} FireKeepsRegistrations(s: State, q: nat)
    requires Registrations(s) && q < |s.notify|
    ensures Registrations(Fire(s, q))
  {
    var s' := Fire(s, q);
    if s.notify[q].registered {
      assert RegInv(s, s.notify[q]);
      forall p: nat | p < |s'.notify|
        ensures RegInv(s', s'.notify[p])
      {
        assert RegInv(s, s.notify[p]);
        assert p != q ==> !SameRegistration(s.notify[p], s.notify[q]);
      }
    }
  }

  lemma {:induction false} PutKeepsInv(s: State, q: nat, bytes: seq<byte>, prio: nat)
    requires Inv(s) && q < MQ_MAX && s.pool[q].active && |bytes| <= s.pool[q].msgsize
    ensures Inv(PutMsg(s, q, bytes, prio).0)
  {
    var s' := PutMsg(s, q, bytes, prio).0;
    if s' != s {
      var m := Msg(bytes, prio, s.clock);
      var s1 := Enqueued(s, q, m);
      assert QueueInv(s.pool[q]);
      EnqueueKeepsStamps(s, q, m);
      EnqueueKeepsQueue(s, q, m);
      TablesFrame(s, s1);
      FireKeepsRegistrations(s1, q);
      TablesFrame(s1, s');
      StampsFrame(s1, s');
    }
  }

  lemma {:induction false} ReceiveKeepsStamps(s: State, s': State, q: nat)
    requires Stamps(s) && q < |s.pool| && s.pool[q].msgs != [] && Ordered(s.pool[q].msgs)
    requires |s'.pool| == |s.pool| && s'.pool == s.pool[q := s'.pool[q]] && s'.pool[q].msgs == s.pool[q].msgs[1..]
    requires s'.clock == s.clock && s'.received == s.received + [s.pool[q].msgs[0].stamp]
    ensures Stamps(s')
  {
    var m := s.pool[q].msgs[0];
    assert Present(s.pool, q, m) && StampInv(s, m);
    forall p: nat, n: Msg | Present(s'.pool, p, n)
      ensures Present(s.pool, p, n) && StampInv(s', n)
    {
      assert Present(s.pool, p, n) && StampInv(s, n);
    }
  }

  lemma {:induction false} TakeKeepsInv(s: State, q: nat, len: nat)
    requires Inv(s) && q < MQ_MAX
    ensures Inv(TakeMsg(s, q, len).0)
  {
    var (s', r) := TakeMsg(s, q, len);
    if r.Message? {
      assert QueueInv(s.pool[q]);
      TablesFrame(s, s');
      RegistrationsFrame(s, s');
      ReceiveKeepsStamps(s, s', q);
    }
  }

  lemma {:induction false} DeregisterKeepsInv(s: State, q: nat)
    requires Inv(s) && q < MQ_MAX
    ensures Inv(Deregistered(s, q))
  {
    var s' := Deregistered(s, q);
    TablesFrame(s, s');
    RegistrationsFrame(s, s');
    StampsFrame(s, s');
  }

  lemma {:induction false} ReceiveKeepsInv(s: State, d: int, room: Room)
    requires Inv(s)
    ensures Inv(Receive(s, d, room).0)
  {
    if Receive(s, d, room).0 != s {
      var q := s.descs[d].queue;
      DeregisterKeepsInv(s, q);
      TakeKeepsInv(Deregistered(s, q), q, room.len);
    }
  }

  lemma {:induction false} NotificationKeepsInv(s: State, d: int, req: Request, pid: nat)
    requires Inv(s)
    ensures Inv(Notification(s, d, req, pid).0)
  {
    var s' := Notification(s, d, req, pid).0;
    TablesFrame(s, s');
    StampsFrame(s, s');
    forall p: nat | p < |s'.notify|
      ensures RegInv(s', s'.notify[p])
    {
      assert RegInv(s, s.notify[p]);
    }
  }

  lemma {:induction false} ApplyKeepsInv(s: State, c: Call)
    requires Inv(s)
    ensures Inv(Apply(s, c).0)
  {
    match c
    case MqOpen(name, fl, attr) =>
      OpenKeepsTables(s, name, fl, attr);
      OpenKeepsRest(s, name, fl, attr);
    case MqClose(d, pid) =>
      CloseKeepsTables(s, d, pid);
      CloseUnlinkKeepRest(s, Close(s, d, pid).0);
    case MqUnlink(name) =>
      UnlinkKeepsTables(s, name);
      CloseUnlinkKeepRest(s, Unlink(s, name).0);
    case MqSend(d, buf, prio) => SendKeepsInv(s, d, buf, prio);
    case MqReceive(d, room) => ReceiveKeepsInv(s, d, room);
    case MqNotify(d, req, pid) => NotificationKeepsInv(s, d, req, pid);
    case _ => GoOnKeepsInv(s, c);
  }

  lemma {:induction false} SendKeepsInv(s: State, d: int, buf: Buffer, prio: nat)
    requires Inv(s)
    ensures Inv(Send(s, d, buf, prio).0)
  {
    if Send(s, d, buf, prio).0 != s {
      PutKeepsInv(s, s.descs[d].queue, buf.bytes, prio);
    }
  }

  lemma {:induction false} GoOnKeepsInv(s: State, c: Call)
    requires Inv(s) && (c.GoOnSending? || c.GoOnReceiving?)
    ensures Inv(Apply(s, c).0)
  {
    match c
    case GoOnSending(q, bytes, prio) =>
      if Live(s, q) && |bytes| <= s.pool[q].msgsize {
        PutKeepsInv(s, q, bytes, prio);
      }
    case GoOnReceiving(q, len) =>
      if Live(s, q) {
        TakeKeepsInv(s, q, len);
      }
  }

  // ---------------------------------------------------------------- whole runs

  ghost predicate Step(s: State, s': State) {
    Sized(s) && exists c: Call :: s' == Apply(s, c).0
  }

  /** The k-th step of a run, if it has one. */
  ghost predicate StepAt(run: seq<State>, k: nat) {
    k + 1 < |run| ==> Step(run[k], run[k + 1])
  }

  ghost predicate IsRun(run: seq<State>) {
    && |run| > 0
    && Init(run[0])
    && forall k: nat :: StepAt(run, k)
  }

  lemma {:induction false} RunKeepsInv(run: seq<State>, n: nat)
    requires IsRun(run) && n < |run|
    ensures Inv(run[n])
  {
    if n == 0 {
      InitEstablishesInv(run[0]);
    } else {
      RunKeepsInv(run, n - 1);
      assert StepAt(run, n - 1);
      var c: Call :| run[n] == Apply(run[n - 1], c).0;
      ApplyKeepsInv(run[n - 1], c);
    }
  }

  /** The active descriptors that name queue q. */
  ghost function DescsOf(descs: seq<Desc>, q: nat): set<nat> {
    set d: nat | d < |descs| && descs[d].active && descs[d].queue == q
  }

  lemma {:induction false} NumDescsIsCardinality(descs: seq<Desc>, q: nat)
    ensures NumDescs(descs, q) == |DescsOf(descs, q)|
  {
    if descs == [] {
      assert DescsOf(descs, q) == {};
    } else {
      var n := |descs| - 1;
      NumDescsIsCardinality(descs[..n], q);
      assert DescsOf(descs, q)
          == DescsOf(descs[..n], q) + if descs[n].active && descs[n].queue == q then {n} else {};
    }
  }

  /** The life cycle in every reachable state. */
  lemma {:induction false} QueueLifecycle(run: seq<State>, n: nat, q: nat)
    requires IsRun(run) && n < |run| && q < MQ_MAX
    ensures Sized(run[n])
    ensures run[n].pool[q].refcount == |DescsOf(run[n].descs, q)|
    ensures DescsOf(run[n].descs, q) != {} ==> run[n].pool[q].active
    ensures run[n].pool[q].active && run[n].pool[q].unlinked ==> DescsOf(run[n].descs, q) != {}
    ensures forall p: nat :: p < MQ_MAX && SameName(run[n].pool[p], run[n].pool[q]) ==> p == q
  {
    RunKeepsInv(run, n);
    var s := run[n];
    assert RefcountInv(s, q);
    NumDescsIsCardinality(s.descs, q);
    if d :| d in DescsOf(s.descs, q) {
      assert DescInv(s, d);
    }
  }

  /** A live queue is destroyed by a call exactly when the call leaves it unlinked with no descriptors. */
  lemma {:induction false} DestroyedExactlyAtLastClose(s: State, c: Call, q: nat)
    requires Inv(s) && q < MQ_MAX && s.pool[q].active
    ensures Sized(Apply(s, c).0)
    ensures var s' := Apply(s, c).0;
            !s'.pool[q].active <==> s'.pool[q].unlinked && DescsOf(s'.descs, q) == {}
  {
    ApplyKeepsInv(s, c);
    var s' := Apply(s, c).0;
    DestroyedWhen(s, c, q);
    assert RefcountInv(s', q);
    NumDescsIsCardinality(s'.descs, q);
  }

  lemma {:induction false} DestroyedWhen(s: State, c: Call, q: nat)
    requires Sized(s) && Sized(Apply(s, c).0) && q < MQ_MAX && s.pool[q].active
    ensures var s' := Apply(s, c).0; !s'.pool[q].active ==> s'.pool[q].unlinked && s'.pool[q].refcount == 0
  {
  }

  /** Each queue holds at most mq_maxmsg messages, counted by mq_curmsgs, in leaving order. */
  lemma {:induction false} QueueIsBoundedAndOrdered(run: seq<State>, n: nat, q: nat)
    requires IsRun(run) && n < |run| && q < MQ_MAX
    ensures Sized(run[n])
    ensures run[n].pool[q].active ==> run[n].pool[q].curmsgs == |run[n].pool[q].msgs| <= run[n].pool[q].maxmsg
    ensures Ordered(run[n].pool[q].msgs)
    ensures NoDup(run[n].received)
    ensures forall m :: m in run[n].pool[q].msgs ==> m.stamp !in run[n].received
  {
    RunKeepsInv(run, n);
    var s := run[n];
    assert QueueInv(s.pool[q]);
    forall m | m in s.pool[q].msgs
      ensures m.stamp !in s.received
    {
      assert Present(s.pool, q, m) && StampInv(s, m);
    }
  }

  /** The queue's first message is taken, and it goes before all that stay. */
  lemma {:induction false} TakesFirst(s: State, q: nat, len: nat)
    requires Inv(s) && q < MQ_MAX
    ensures var (s', r) := TakeMsg(s, q, len);
            && s'.descs == s.descs
            && (r.Message? ==>
                  && r.msg.stamp !in s.received && s'.received == s.received + [r.msg.stamp]
                  && s.pool[q].msgs == [r.msg] + s'.pool[q].msgs
                  && (forall p: nat :: p < MQ_MAX && p != q ==> s'.pool[p] == s.pool[p])
                  && forall m :: m in s'.pool[q].msgs ==> Before(r.msg, m))
            && (!r.Message? ==> s' == s)
  {
    var (s', r) := TakeMsg(s, q, len);
    if r.Message? {
      assert QueueInv(s.pool[q]);
      assert Present(s.pool, q, r.msg) && StampInv(s, r.msg);
      var rest := s'.pool[q].msgs;
      forall m | m in rest
        ensures Before(r.msg, m)
      {
        var i :| 0 <= i < |rest| && rest[i] == m;
        assert m == s.pool[q].msgs[i + 1];
      }
    }
  }

  /** A receive takes, of the messages present, the oldest of the highest priority, and only that one. */
  lemma {:induction false} ReceiveTakesFirst(s: State, d: int, room: Room)
    requires Inv(s)
    ensures var (s', r) := Receive(s, d, room);
            && s'.descs == s.descs
            && (r.Message? ==>
                  && !BadDesc(s, d) && r.msg.stamp !in s.received
                  && s.pool[s.descs[d].queue].msgs == [r.msg] + s'.pool[s.descs[d].queue].msgs
                  && forall m :: m in s'.pool[s.descs[d].queue].msgs ==> Before(r.msg, m))
            && (!r.Message? ==> s'.pool == s.pool && s'.received == s.received)
  {
    if Receive(s, d, room).0 != s {
      var q := s.descs[d].queue;
      DeregisterKeepsInv(s, q);
      TakesFirst(Deregistered(s, q), q, room.len);
    }
  }

  // ---------------------------------------------------------------- what a call does to the messages

  /** Queues keep their messages or lose them all, and nothing is sent or received. */
  ghost predicate Quiet(s: State, s': State) {
    && |s'.pool| == |s.pool| && s'.clock == s.clock && s'.received == s.received
    && forall p: nat :: p < |s.pool| ==> s'.pool[p].msgs == s.pool[p].msgs || s'.pool[p].msgs == []
  }

  predicate SameElsewhere(s: State, s': State, p: nat) {
    |s'.pool| == |s.pool| && p < |s.pool| && forall x: nat :: x < |s.pool| && x != p ==> s'.pool[x].msgs == s.pool[x].msgs
  }

  /** Message n, the newest, came into queue p. */
  ghost predicate Sent(s: State, s': State, p: nat, n: Msg) {
    && SameElsewhere(s, s', p) && s'.pool[p].msgs == Insert(s.pool[p].msgs, n)
    && n.stamp == s.clock && s'.clock == s.clock + 1 && s'.received == s.received
  }

  /** Message n, the first of queue p, was received. */
  ghost predicate Took(s: State, s': State, p: nat, n: Msg) {
    && SameElsewhere(s, s', p) && s.pool[p].msgs == [n] + s'.pool[p].msgs
    && s'.clock == s.clock && s'.received == s.received + [n.stamp]
  }

  lemma {:induction false} CloseQueue(s: State, d: int, pid: nat, q: nat)
    requires Sized(s) && q < MQ_MAX
    ensures var s' := Close(s, d, pid).0; Sized(s') && (s'.pool[q].msgs == s.pool[q].msgs || s'.pool[q].msgs == [])
  {
  }

  lemma {:induction false} UnlinkQueue(s: State, name: string, q: nat)
    requires Sized(s) && q < MQ_MAX
    ensures var s' := Unlink(s, name).0; Sized(s') && (s'.pool[q].msgs == s.pool[q].msgs || s'.pool[q].msgs == [])
  {
  }

  lemma {:induction false} QuietOrEmptied(s: State, c: Call, q: nat)
    requires QueuesSized(s, c) && q < MQ_MAX && QueueInv(s.pool[q])
    requires Apply(s, c).0.clock == s.clock && !Apply(s, c).1.Message?
    ensures Apply(s, c).0.pool[q].msgs == s.pool[q].msgs || Apply(s, c).0.pool[q].msgs == []
  {
    match c {
      case MqOpen(name, fl, attr) => OpenKeepsQueue(s, name, fl, attr, q);
      case MqClose(d, pid) => CloseQueue(s, d, pid, q);
      case MqUnlink(name) => UnlinkQueue(s, name, q);
      case _ => SendReceiveQueue(s, c, q);
    }
  }

  lemma {:induction false} SendReceiveQueue(s: State, c: Call, q: nat)
    requires QueuesSized(s, c) && q < MQ_MAX && !c.MqOpen? && !c.MqClose? && !c.MqUnlink?
    requires Apply(s, c).0.clock == s.clock && !Apply(s, c).1.Message?
    ensures Apply(s, c).0.pool[q].msgs == s.pool[q].msgs
  {
  }

  lemma {:induction false} QuietApply(s: State, c: Call)
    requires Inv(s) && Apply(s, c).0.clock == s.clock && !Apply(s, c).1.Message?
    ensures Quiet(s, Apply(s, c).0)
  {
    ApplyKeepsInv(s, c);
    QuietHistory(s, c);
    forall q: nat | q < MQ_MAX
      ensures Apply(s, c).0.pool[q].msgs == s.pool[q].msgs || Apply(s, c).0.pool[q].msgs == []
    {
      assert QueueInv(s.pool[q]);
      QuietOrEmptied(s, c, q);
    }
  }

  lemma {:induction false} PutSends(s: State, q: nat, bytes: seq<byte>, prio: nat)
    requires Sized(s) && q < MQ_MAX && PutMsg(s, q, bytes, prio).0.clock != s.clock
    ensures Sent(s, PutMsg(s, q, bytes, prio).0, q, Msg(bytes, prio, s.clock))
  {
  }

  lemma {:induction false} TakeTakes(s: State, q: nat, len: nat)
    requires Sized(s) && q < MQ_MAX && TakeMsg(s, q, len).1.Message?
    ensures Took(s, TakeMsg(s, q, len).0, q, TakeMsg(s, q, len).1.msg)
  {
  }

  lemma {:induction false} SendSends(s: State, c: Call) returns (p: nat, n: Msg)
    requires Sized(s) && Apply(s, c).0.clock != s.clock
    ensures Sent(s, Apply(s, c).0, p, n)
  {
    match c {
      case MqSend(d, buf, prio) =>
        p, n := s.descs[d].queue, Msg(buf.bytes, prio, s.clock);
        PutSends(s, p, buf.bytes, prio);
      case GoOnSending(q, bytes, prio) =>
        p, n := q, Msg(bytes, prio, s.clock);
        PutSends(s, q, bytes, prio);
    }
  }

  lemma {:induction false} ReceiveTakes(s: State, c: Call) returns (p: nat, n: Msg)
    requires Sized(s) && Apply(s, c).1.Message?
    ensures Took(s, Apply(s, c).0, p, n)
  {
    n := Apply(s, c).1.msg;
    match c {
      case MqReceive(d, room) =>
        p := s.descs[d].queue;
        TakeTakes(Deregistered(s, p), p, room.len);
      case GoOnReceiving(q, len) =>
        p := q;
        TakeTakes(s, q, len);
    }
  }

  /** Every call does one of the three. */
  lemma {:induction false} Kinds(s: State, c: Call) returns (p: nat, n: Msg)
    requires Inv(s)
    ensures var s' := Apply(s, c).0; Quiet(s, s') || Sent(s, s', p, n) || Took(s, s', p, n)
  {
    p, n := 0, Msg([], 0, 0);
    if Apply(s, c).0.clock != s.clock {
      p, n := SendSends(s, c);
    } else if Apply(s, c).1.Message? {
      p, n := ReceiveTakes(s, c);
    } else {
      QuietApply(s, c);
    }
  }

  /** The stamps of the messages that are in a queue or have been received. */
  ghost function Accounted(s: State): set<nat> {
    (set q: nat, m: Msg | q < |s.pool| && m in s.pool[q].msgs :: m.stamp) + (set x | x in s.received)
  }

  /** No message is lost or invented: a call that destroys no queue accounts for the same messages and the one it sends. */
  lemma {:induction false} MessagesConserved(s: State, c: Call)
    requires Inv(s)
    requires Sized(Apply(s, c).0)
    requires forall q: nat :: q < MQ_MAX && s.pool[q].active ==> Apply(s, c).0.pool[q].active
    ensures var s' := Apply(s, c).0;
            Accounted(s') == Accounted(s) + if s'.clock > s.clock then {s.clock} else {}
  {
    var s' := Apply(s, c).0;
    if s'.clock != s.clock {
      var p, n := SendSends(s, c);
      SentAccounts(s, s', p, n);
    } else if Apply(s, c).1.Message? {
      var p, n := ReceiveTakes(s, c);
      TookAccounts(s, s', p, n);
    } else {
      QuietCall(s, c);
      AccountedSame(s, s');
    }
  }

  /** A call other than a completed send or receive leaves alone the messages of a queue it does not destroy. */
  lemma {:induction false} QuietQueue(s: State, c: Call, q: nat)
    requires QueuesSized(s, c) && q < MQ_MAX && QueueInv(s.pool[q])
    requires s.pool[q].active ==> Apply(s, c).0.pool[q].active
    requires Apply(s, c).0.clock == s.clock && !Apply(s, c).1.Message?
    ensures Apply(s, c).0.pool[q].msgs == s.pool[q].msgs
  {
    match c {
      case MqOpen(name, fl, attr) => OpenKeepsQueue(s, name, fl, attr, q);
      case _ =>
    }
  }

  predicate QueuesSized(s: State, c: Call) { Sized(s) && Sized(Apply(s, c).0) }

  lemma {:induction false} QuietHistory(s: State, c: Call)
    requires Sized(s) && !Apply(s, c).1.Message?
    ensures Apply(s, c).0.received == s.received
  {
  }

  lemma {:induction false} QuietCall(s: State, c: Call)
    requires Queues(s) && QueuesSized(s, c)
    requires forall q: nat :: q < MQ_MAX && s.pool[q].active ==> Apply(s, c).0.pool[q].active
    requires Apply(s, c).0.clock == s.clock && !Apply(s, c).1.Message?
    ensures forall q: nat :: q < MQ_MAX ==> Apply(s, c).0.pool[q].msgs == s.pool[q].msgs
    ensures Apply(s, c).0.received == s.received
  {
    QuietHistory(s, c);
    forall q: nat | q < MQ_MAX
      ensures Apply(s, c).0.pool[q].msgs == s.pool[q].msgs
    {
      assert QueueInv(s.pool[q]);
      QuietQueue(s, c, q);
    }
  }

  lemma {:induction false} AccountedSame(s: State, s': State)
    requires |s'.pool| == |s.pool| && s'.received == s.received
    requires forall q: nat :: q < |s.pool| ==> s'.pool[q].msgs == s.pool[q].msgs
    ensures Accounted(s') == Accounted(s)
  {
  }

  lemma {:induction false} StillAccounted(s: State, s': State, x: nat)
    requires x in Accounted(s) && s.received <= s'.received && |s'.pool| == |s.pool|
    requires forall p: nat, m: Msg :: Present(s.pool, p, m) ==> Present(s'.pool, p, m) || m.stamp in s'.received
    ensures x in Accounted(s')
  {
    if x !in s.received {
      var p: nat, m: Msg :| p < |s.pool| && m in s.pool[p].msgs && m.stamp == x;
      assert Present(s.pool, p, m);
    }
  }

  lemma {:induction false} SentAccounts(s: State, s': State, q: nat, n: Msg)
    requires Sent(s, s', q, n)
    ensures Accounted(s') == Accounted(s) + {s.clock}
  {
    InsertContents(s.pool[q].msgs, n);
    assert n in s'.pool[q].msgs;
    forall x | x in Accounted(s)
      ensures x in Accounted(s')
    {
      StillAccounted(s, s', x);
    }
    forall x | x in Accounted(s')
      ensures x in Accounted(s) + {s.clock}
    {
      if x !in s'.received {
        var p: nat, m: Msg :| p < |s'.pool| && m in s'.pool[p].msgs && m.stamp == x;
        assert m == n || m in s.pool[p].msgs;
      }
    }
  }

  lemma {:induction false} TookAccounts(s: State, s': State, q: nat, n: Msg)
    requires Took(s, s', q, n)
    ensures Accounted(s') == Accounted(s)
  {
    assert n in s.pool[q].msgs;
    forall x | x in Accounted(s)
      ensures x in Accounted(s')
    {
      StillAccounted(s, s', x);
    }
    forall x | x in Accounted(s')
      ensures x in Accounted(s)
    {
      if x !in s'.received {
        var p: nat, m: Msg :| p < |s'.pool| && m in s'.pool[p].msgs && m.stamp == x;
        assert m in s.pool[p].msgs;
      }
    }
  }

  /** The queue a send goes to. */
  function SendQueue(s: State, c: Call): nat {
    match c
    case MqSend(d, _, _) => if BadDesc(s, d) then |s.pool| else s.descs[d].queue
    case GoOnSending(q, _, _) => q
    case _ => |s.pool|
  }

  lemma {:induction false} PutFires(s: State, q: nat, bytes: seq<byte>, prio: nat)
    requires Inv(s) && q < MQ_MAX && s.pool[q].active
    ensures var (s', r) := PutMsg(s, q, bytes, prio);
            s'.fired != s.fired ==> FirstMessage(s, s', q) && r == Ok(0)
  {
    var s' := PutMsg(s, q, bytes, prio).0;
    if s'.fired != s.fired {
      assert QueueInv(s.pool[q]) && RegInv(s, s.notify[q]);
      InsertContents(s.pool[q].msgs, Msg(bytes, prio, s.clock));
    }
  }

  /** The queue went from empty to one message, and its registration, used up, has fired for the first time. */
  ghost predicate FirstMessage(s: State, s': State, q: nat)
    requires Sized(s)
  {
    && Sized(s') && q < MQ_MAX
    && s.pool[q].msgs == [] && |s'.pool[q].msgs| == 1
    && s.notify[q].registered && !s'.notify[q].registered
    && s'.fired == s.fired + [s.notify[q].id] && s.notify[q].id !in s.fired
  }

  /** A send fires exactly when there is room, the queue is empty and a registration is in force. */
  lemma {:induction false} PutFiresExactly(s: State, q: nat, bytes: seq<byte>, prio: nat)
    requires Inv(s) && q < MQ_MAX && s.pool[q].active
    ensures PutMsg(s, q, bytes, prio).0.fired != s.fired
      <==> s.pool[q].maxmsg > 0 && s.pool[q].msgs == [] && s.notify[q].registered
  {
    assert QueueInv(s.pool[q]);
  }

  /** And no other call ever does: what fires is a send that goes through to such a queue. */
  lemma {:induction false} FiresExactly(s: State, c: Call)
    requires Inv(s)
    ensures var (s', r) := Apply(s, c); var q := SendQueue(s, c);
            s'.fired != s.fired <==> q < |s.pool| && r == Ok(0) && s.pool[q].msgs == [] && s.notify[q].registered
  {
    match c
    case MqSend(d, buf, prio) =>
      if !BadDesc(s, d) && buf.Data? && Apply(s, c) == PutMsg(s, s.descs[d].queue, buf.bytes, prio) {
        assert DescInv(s, d);
        PutFiresExactly(s, s.descs[d].queue, buf.bytes, prio);
      }
    case GoOnSending(q, bytes, prio) =>
      if Live(s, q) {
        PutFiresExactly(s, q, bytes, prio);
      }
    case _ =>
  }

  /** A registration fires only in a send that finds the queue empty, and then it is gone. */
  lemma {:induction false} FiresOnlyOnFirstMessage(s: State, c: Call)
    requires Inv(s)
    ensures var (s', r) := Apply(s, c);
            s'.fired != s.fired ==> r == Ok(0) && FirstMessage(s, s', SendQueue(s, c))
  {
    if Apply(s, c).0.fired != s.fired {
      match c {
        case MqSend(d, buf, prio) => PutFires(s, s.descs[d].queue, buf.bytes, prio);
        case GoOnSending(q, bytes, prio) => PutFires(s, q, bytes, prio);
      }
    }
  }

  /** Over a whole run no registration fires twice. */
  lemma {:induction false} FiresAtMostOnce(run: seq<State>, n: nat)
    requires IsRun(run) && n < |run|
    ensures NoDup(run[n].fired)
  {
    RunKeepsInv(run, n);
  }

  // ---------------------------------------------------------------- the order over whole runs

  /** Lost with its queue: no longer present and never received. */
  ghost predicate Gone(s: State, x: nat) {
    && x < s.clock && x !in s.received
    && forall p: nat, n: Msg :: Present(s.pool, p, n) ==> n.stamp != x
  }

  ghost predicate InQueue(s: State, q: nat, m: Msg) { q < |s.pool| && m in s.pool[q].msgs }

  /** Where a sent message can be. */
  ghost predicate Somewhere(s: State, q: nat, m: Msg) {
    InQueue(s, q, m) || m.stamp in s.received || Gone(s, m.stamp)
  }

  lemma {:induction false} StaysGone(s: State, c: Call, x: nat)
    requires Inv(s) && Gone(s, x)
    ensures Gone(Apply(s, c).0, x)
  {
    var s' := Apply(s, c).0;
    var p, n := Kinds(s, c);
    if Sent(s, s', p, n) {
      InsertContents(s.pool[p].msgs, n);
    }
    forall a: nat, m: Msg | Present(s'.pool, a, m)
      ensures m.stamp != x
    {
      assert Present(s.pool, a, m) || m == n;
    }
    if Took(s, s', p, n) {
      assert Present(s.pool, p, n);
    }
  }

  lemma {:induction false} SentKeeps(s: State, s': State, p: nat, n: Msg, q: nat, m: Msg)
    requires Sent(s, s', p, n) && InQueue(s, q, m)
    ensures InQueue(s', q, m)
  {
    InsertContents(s.pool[p].msgs, n);
  }

  lemma {:induction false} StaysSomewhere(s: State, c: Call, q: nat, m: Msg)
    requires Inv(s) && Somewhere(s, q, m)
    ensures Somewhere(Apply(s, c).0, q, m)
    ensures s.received <= Apply(s, c).0.received
  {
    var s' := Apply(s, c).0;
    var p, n := Kinds(s, c);
    if Sent(s, s', p, n) && InQueue(s, q, m) {
      SentKeeps(s, s', p, n, q, m);
    }
    if Gone(s, m.stamp) {
      StaysGone(s, c, m.stamp);
    } else if InQueue(s, q, m) && !InQueue(s', q, m) && m.stamp !in s'.received {
      assert Present(s.pool, q, m) && StampInv(s, m);
      forall a: nat, x: Msg | Present(s'.pool, a, x)
        ensures x.stamp != m.stamp
      {
        assert Present(s.pool, a, x);
      }
    }
  }

  /** x stands before y. */
  ghost predicate Precedes(xs: seq<nat>, x: nat, y: nat) {
    exists a, b :: 0 <= a < b < |xs| && xs[a] == x && xs[b] == y
  }

  lemma OldStamp(s: State, q: nat, m: Msg)
    requires Inv(s) && Somewhere(s, q, m)
    ensures m.stamp < s.clock
  {
    if InQueue(s, q, m) {
      assert Present(s.pool, q, m) && StampInv(s, m);
    }
  }

  /** m1 has been received before m2 was, or will be: if m2 is still there, m1 is there too or has been received. */
  ghost predicate Ahead(s: State, q: nat, m1: Msg, m2: Msg) {
    && Somewhere(s, q, m2)
    && (m2.stamp in s.received ==> Precedes(s.received, m1.stamp, m2.stamp))
    && (InQueue(s, q, m2) ==> InQueue(s, q, m1) || m1.stamp in s.received)
  }

  lemma PrecedesLonger(xs: seq<nat>, ys: seq<nat>, x: nat, y: nat)
    requires xs <= ys && Precedes(xs, x, y)
    ensures Precedes(ys, x, y)
  {
    var a, b :| 0 <= a < b < |xs| && xs[a] == x && xs[b] == y;
    assert ys[a] == x && ys[b] == y;
  }

  lemma PrecedesLast(xs: seq<nat>, x: nat, y: nat)
    requires x in xs
    ensures Precedes(xs + [y], x, y)
  {
    var a :| 0 <= a < |xs| && xs[a] == x;
    assert (xs + [y])[a] == x && (xs + [y])[|xs|] == y;
  }

  /** Of two messages in a queue the one that must leave first is not behind the other at the front. */
  lemma FrontIsFirst(s: State, q: nat, m1: Msg, m2: Msg)
    requires Inv(s) && InQueue(s, q, m1) && InQueue(s, q, m2) && Before(m1, m2)
    ensures s.pool[q].msgs[0] != m2
  {
    var msgs := s.pool[q].msgs;
    assert QueueInv(s.pool[q]);
    var i :| 0 <= i < |msgs| && msgs[i] == m1;
    assert i > 0 ==> Before(msgs[0], msgs[i]);
  }

  lemma {:induction false} TookKeepsAhead(s: State, s': State, q: nat, m1: Msg, m2: Msg, p: nat, n: Msg)
    requires Inv(s) && Ahead(s, q, m1, m2) && Before(m1, m2) && Took(s, s', p, n) && Somewhere(s', q, m2)
    ensures Ahead(s', q, m1, m2)
  {
    assert Present(s.pool, p, n) && StampInv(s, n);
    if m2.stamp in s.received {
      PrecedesLonger(s.received, s'.received, m1.stamp, m2.stamp);
    } else if n.stamp == m2.stamp {
      assert Present(s.pool, q, m2);
      if InQueue(s, q, m1) {
        FrontIsFirst(s, q, m1, m2);
      }
      PrecedesLast(s.received, m1.stamp, m2.stamp);
    }
  }

  lemma {:induction false} StaysAhead(s: State, c: Call, q: nat, m1: Msg, m2: Msg)
    requires Inv(s) && Ahead(s, q, m1, m2) && Before(m1, m2)
    ensures Ahead(Apply(s, c).0, q, m1, m2)
  {
    var s' := Apply(s, c).0;
    var p, n := Kinds(s, c);
    StaysSomewhere(s, c, q, m2);
    if Took(s, s', p, n) {
      TookKeepsAhead(s, s', q, m1, m2, p, n);
    } else if Sent(s, s', p, n) {
      InsertContents(s.pool[p].msgs, n);
      OldStamp(s, q, m2);
    }
  }

  lemma {:induction false} SomewhereLater(run: seq<State>, k: nat, n: nat, q: nat, m: Msg)
    requires IsRun(run) && k <= n < |run| && Somewhere(run[k], q, m)
    ensures Somewhere(run[n], q, m) && run[k].received <= run[n].received
    ensures Gone(run[k], m.stamp) ==> Gone(run[n], m.stamp)
    decreases n
  {
    if k < n {
      SomewhereLater(run, k, n - 1, q, m);
      var c := CallAt(run, n - 1);
      StaysSomewhere(run[n - 1], c, q, m);
      if Gone(run[k], m.stamp) {
        StaysGone(run[n - 1], c, m.stamp);
      }
    }
  }

  lemma CallAt(run: seq<State>, k: nat) returns (c: Call)
    requires IsRun(run) && k + 1 < |run|
    ensures Inv(run[k]) && run[k + 1] == Apply(run[k], c).0
  {
    RunKeepsInv(run, k);
    assert StepAt(run, k);
    c :| run[k + 1] == Apply(run[k], c).0;
  }

  lemma {:induction false} AheadLater(run: seq<State>, k: nat, n: nat, q: nat, m1: Msg, m2: Msg)
    requires IsRun(run) && k <= n < |run| && Ahead(run[k], q, m1, m2) && Before(m1, m2)
    ensures Ahead(run[n], q, m1, m2)
    decreases n
  {
    if k < n {
      AheadLater(run, k, n - 1, q, m1, m2);
      var c := CallAt(run, n - 1);
      StaysAhead(run[n - 1], c, q, m1, m2);
    }
  }

  /**
   * The order of a queue over whole runs: of two messages of one queue, the one that must
   * leave first (higher priority, or equal priority and sent earlier) and that was there no
   * later than the other is received first, whatever else is called in between.
   */
  lemma {:induction false} ReceivedInOrder(run: seq<State>, j: nat, k: nat, n: nat, q: nat, m1: Msg, m2: Msg)
    requires IsRun(run) && j <= k <= n < |run| && Before(m1, m2)
    requires InQueue(run[j], q, m1) && InQueue(run[k], q, m2)
    requires m1.stamp in run[n].received && m2.stamp in run[n].received
    ensures Precedes(run[n].received, m1.stamp, m2.stamp)
  {
    SomewhereLater(run, j, k, q, m1);
    SomewhereLater(run, k, n, q, m1);
    RunKeepsInv(run, k);
    assert Present(run[k].pool, q, m2) && StampInv(run[k], m2);
    AheadLater(run, k, n, q, m1, m2);
  }
}
