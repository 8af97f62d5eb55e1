/**
 * The message queue calls in place: the fixed tables, and the messages in linked lists on
 * the heap. Each method computes the state and the result its specification gives.
 */
module MessageTables {

  import opened Octets
  import opened MessageList
  import opened MessageQueue

  /** The pool with the messages its lists hold. */
  function Filled(pool: seq<Queue>, ms: seq<seq<Msg>>): (r: seq<Queue>)
    requires |pool| == |ms|
    ensures |r| == |pool| && forall q :: 0 <= q < |r| ==> r[q] == pool[q].(msgs := ms[q])
  {
    seq(|pool|, q requires 0 <= q < |pool| => pool[q].(msgs := ms[q]))
  }

  lemma FilledQueue(pool: seq<Queue>, ms: seq<seq<Msg>>, q: nat, queue: Queue)
    requires q < |pool| == |ms|
    ensures Filled(pool[q := queue], ms) == Filled(pool, ms)[q := queue.(msgs := ms[q])]
  {
  }

  lemma FilledMsgs(pool: seq<Queue>, ms: seq<seq<Msg>>, q: nat, m: seq<Msg>)
    requires q < |pool| == |ms|
    ensures Filled(pool, ms[q := m]) == Filled(pool, ms)[q := pool[q].(msgs := m)]
  {
  }

  function SetMsgs(s: State, q: nat, ms: seq<Msg>): State
    requires q < |s.pool|
  {
    SetQueue(s, q, s.pool[q].(msgs := ms))
  }

  lemma SetTwice(s: State, q: nat, ms: seq<Msg>, queue: Queue)
    requires q < |s.pool|
    ensures SetQueue(SetMsgs(s, q, ms), q, queue) == SetQueue(s, q, queue)
  {
  }

  /** A queue's `msgs` in the array is not used; its messages are in its list. */
  class Tables {
    const pool: array<Queue>
    const lists: Lists
    const descs: array<Desc>
    const notify: array<Notify>
    var clock: nat
    var received: seq<nat>
    var nextId: nat
    var fired: seq<nat>

    ghost predicate Linked()
      reads this, pool, lists, lists.heads
    {
      lists.Valid() && lists.heads.Length == |lists.msgs| == pool.Length
    }

    ghost function View(): State
      reads this, pool, lists, lists.heads, descs, notify
      requires Linked()
    {
      State(Filled(pool[..], lists.msgs), descs[..], notify[..], clock, received, nextId, fired)
    }

    ghost predicate Valid()
      reads this, pool, lists, lists.heads, descs, notify
    {
      Linked() && Inv(View())
    }

    constructor ()
      ensures Valid() && Init(View())
    {
      pool := new Queue[MQ_MAX](_ => UNUSED);
      lists := new Lists(MQ_MAX);
      descs := new Desc[DESC_MAX](_ => Desc(false, 0, RdOnly));
      notify := new Notify[MQ_MAX](_ => Notify(false, 0, 0));
      clock, received, nextId, fired := 0, [], 0, [];
      new;
      InitEstablishesInv(View());
    }

    /** __jacl_mq_find: the index of the linked queue, or the table size. */
    method Find(name: string) returns (i: nat)
      requires Linked()
      ensures i == FindName(View().pool, name, 0)
    {
      i := 0;
      while i < pool.Length && !Named(pool[i], name)
        invariant i <= pool.Length
        invariant FindName(View().pool, name, 0) == FindName(View().pool, name, i)
      {
        i := i + 1;
      }
    }

    /** The loop of __jacl_mq_alloc. */
    method FreeSlot() returns (i: nat)
      requires Linked()
      ensures i == FindFree(View().pool, 0)
    {
      i := 0;
      while i < pool.Length && pool[i].active
        invariant i <= pool.Length
        invariant FindFree(View().pool, 0) == FindFree(View().pool, i)
      {
        i := i + 1;
      }
    }

    /** The loop of __jacl_mq_desc_alloc. */
    method FreeDesc() returns (i: nat)
      ensures i == FindDesc(descs[..], 0)
    {
      i := 0;
      while i < descs.Length && descs[i].active
        invariant i <= descs.Length
        invariant FindDesc(descs[..], 0) == FindDesc(descs[..], i)
      {
        i := i + 1;
      }
    }

    /** Write a queue's fields other than its list. */
    method SetFields(q: nat, queue: Queue)
      requires Linked() && q < pool.Length
      modifies pool
      ensures Linked() && View() == SetQueue(old(View()), q, queue.(msgs := lists.msgs[q]))
      ensures pool[q] == queue
    {
      FilledQueue(pool[..], lists.msgs, q, queue);
      pool[q] := queue;
    }

    /** The end of mq_open: take a descriptor and count it. */
    method AttachDesc(q: nat, fl: Flags) returns (r: Result)
      requires Linked() && q < pool.Length
      modifies pool, descs
      ensures Linked() && (View(), r) == Attach(old(View()), q, fl)
    {
      var d := FreeDesc();
      if d == descs.Length {
        return Failed(EMFILE);
      }
      descs[d] := Desc(true, q, fl.access);
      SetFields(q, pool[q].(refcount := pool[q].refcount + 1, nonblock := pool[q].nonblock || fl.nonblock));
      r := Ok(d);
    }

    /** __jacl_mq_alloc at a free slot, whose list is empty. */
    method AllocateAt(q: nat, name: string)
      requires Linked() && q < pool.Length == notify.Length && lists.msgs[q] == []
      modifies pool, notify
      ensures Linked() && View() == Allocate(old(View()), q, name)
    {
      SetFields(q, Queue(name, true, false, 0, pool[q].maxmsg, pool[q].msgsize, false, 0, []));
      notify[q] := Notify(false, 0, 0);
    }

    /** Allocate a slot and give it the attributes, if they are good. */
    method SetUp(q: nat, name: string, attr: Attr) returns (ok: bool)
      requires Linked() && q < pool.Length == notify.Length && lists.msgs[q] == []
      modifies pool, notify
      ensures Linked() && (ok <==> attr.Default? || (attr.maxmsg > 0 && attr.msgsize > 0))
      ensures var a := Allocate(old(View()), q, name); View() == if ok then SetQueue(a, q, WithAttr(a.pool[q], attr)) else a
    {
      AllocateAt(q, name);
      ok := attr.Default? || (attr.maxmsg > 0 && attr.msgsize > 0);
      if ok {
        SetFields(q, WithAttr(pool[q], attr));
      }
    }

    method MqOpen(name: string, fl: Flags, attr: Attr) returns (r: Result)
      requires Valid()
      modifies pool, descs, notify
      ensures Valid() && (View(), r) == Open(old(View()), name, fl, attr)
    {
      ApplyKeepsInv(View(), Call.MqOpen(name, fl, attr));
      if !NameValid(name) || (fl.excl && !fl.creat) {
        return Failed(EINVAL);
      }
      var q := Find(name);
      if q == pool.Length {
        if !fl.creat {
          return Failed(ENOENT);
        }
        q := FreeSlot();
        if q == pool.Length {
          return Failed(ENFILE);
        }
        assert QueueInv(View().pool[q]);
        var ok := SetUp(q, name, attr);
        if !ok {
          return Failed(EINVAL);
        }
      } else if fl.creat {
        return Failed(EEXIST);
      }
      r := AttachDesc(q, fl);
    }

    /** __jacl_mq_destroy: free the messages and the slot. */
    method Destroy(q: nat)
      requires Linked() && q < pool.Length
      modifies pool, lists, lists.heads
      ensures Linked() && View() == SetQueue(old(View()), q, Destroyed(old(View()).pool[q]))
    {
      FilledMsgs(pool[..], lists.msgs, q, []);
      lists.Clear(q);
      SetFields(q, pool[q].(active := false));
    }

    /** Count a descriptor out, and destroy an unlinked queue with the last one. */
    method Drop(q: nat)
      requires Linked() && q < pool.Length
      modifies pool, lists, lists.heads
      ensures Linked()
      ensures var was := old(View()).pool[q]; var dropped := was.(refcount := was.refcount - 1);
              View() == SetQueue(old(View()), q, if dropped.refcount == 0 && dropped.unlinked then Destroyed(dropped) else dropped)
    {
      SetFields(q, pool[q].(refcount := pool[q].refcount - 1));
      if pool[q].refcount == 0 && pool[q].unlinked {
        Destroy(q);
      }
    }

    method MqClose(d: int, pid: nat) returns (r: Result)
      requires Valid()
      modifies pool, lists, lists.heads, descs, notify
      ensures Valid() && (View(), r) == Close(old(View()), d, pid)
    {
      ApplyKeepsInv(View(), Call.MqClose(d, pid));
      if d < 0 || d >= descs.Length || !descs[d].active {
        return Failed(EBADF);
      }
      assert DescInv(View(), d);
      var q := descs[d].queue;
      if notify[q].pid == pid {
        notify[q] := notify[q].(registered := false, pid := 0);
      }
      descs[d] := descs[d].(active := false);
      Drop(q);
      r := Ok(0);
    }

    method MqUnlink(name: string) returns (r: Result)
      requires Valid()
      modifies pool, lists, lists.heads
      ensures Valid() && (View(), r) == Unlink(old(View()), name)
    {
      ApplyKeepsInv(View(), Call.MqUnlink(name));
      if !NameValid(name) {
        return Failed(EINVAL);
      }
      var q := Find(name);
      if q == pool.Length {
        return Failed(ENOENT);
      }
      SetFields(q, pool[q].(unlinked := true));
      if pool[q].refcount == 0 {
        Destroy(q);
      }
      assert View() == Unlink(old(View()), name).0;
      r := Ok(0);
    }

    method DoNotify(q: nat)
      requires Linked() && q < notify.Length
      modifies notify, this`fired
      ensures Linked() && View() == Fire(old(View()), q)
    {
      if notify[q].registered {
        fired := fired + [notify[q].id];
        notify[q] := Notify(false, 0, notify[q].id);
      }
    }

    /** mq_send; `node` is the address malloc returns for the message's node. */
    method MqSend(d: int, buf: Buffer, prio: nat, node: nat) returns (r: Result)
      requires Valid() && node != 0 && node !in lists.heap
      modifies pool, lists, lists.heads, notify, this`clock, this`fired
      ensures Valid() && (View(), r) == Send(old(View()), d, buf, prio)
    {
      if d < 0 || d >= descs.Length || !descs[d].active {
        return Failed(EBADF);
      }
      assert DescInv(View(), d);
      var q := descs[d].queue;
      if buf.NullPtr? {
        return Failed(EINVAL);
      }
      if |buf.bytes| > pool[q].msgsize {
        return Failed(EMSGSIZE);
      }
      if descs[d].access.RdOnly? {
        return Failed(EBADF);
      }
      r := Put(q, buf.bytes, prio, node);
    }

    /** Put a message's node into a queue's list. */
    method LinkMsg(q: nat, m: Msg, node: nat)
      requires Linked() && q < pool.Length && node != 0 && node !in lists.heap
      modifies lists, lists.heads
      ensures Linked() && View() == SetMsgs(old(View()), q, Insert(old(View()).pool[q].msgs, m))
    {
      FilledMsgs(pool[..], lists.msgs, q, Insert(lists.msgs[q], m));
      lists.Link(q, m, node);
    }

    /** Take the first node off a queue's list. */
    method PopMsg(q: nat)
      requires Linked() && q < pool.Length && lists.heads[q] != 0
      modifies lists, lists.heads
      ensures Linked() && old(View()).pool[q].msgs != []
      ensures View() == SetMsgs(old(View()), q, old(View()).pool[q].msgs[1..])
    {
      lists.First(q);
      FilledMsgs(pool[..], lists.msgs, q, lists.msgs[q][1..]);
      lists.Pop(q);
    }

    /** The queue part of a send that goes through. */
    method Enqueue(q: nat, m: Msg, node: nat)
      requires Linked() && q < pool.Length && node != 0 && node !in lists.heap
      modifies pool, lists, lists.heads, this`clock
      ensures Linked() && View() == Enqueued(old(View()), q, m)
      ensures pool[q].curmsgs == old(pool[q].curmsgs) + 1
    {
      LinkMsg(q, m, node);
      SetFields(q, pool[q].(curmsgs := pool[q].curmsgs + 1));
      clock := clock + 1;
    }

    /** mq_send from its waiting loop on. */
    method Put(q: nat, bytes: seq<byte>, prio: nat, node: nat) returns (r: Result)
      requires Valid() && q < pool.Length && pool[q].active && |bytes| <= pool[q].msgsize
      requires node != 0 && node !in lists.heap
      modifies pool, lists, lists.heads, notify, this`clock, this`fired
      ensures Valid() && (View(), r) == PutMsg(old(View()), q, bytes, prio)
    {
      PutKeepsInv(View(), q, bytes, prio);
      if pool[q].curmsgs >= pool[q].maxmsg {
        return if pool[q].nonblock then Failed(EAGAIN) else Blocks;
      }
      Enqueue(q, Msg(bytes, prio, clock), node);
      if pool[q].curmsgs == 1 {
        DoNotify(q);
      }
      r := Ok(0);
    }

    method MqReceive(d: int, room: Room) returns (r: Result)
      requires Valid()
      modifies pool, lists, lists.heads, notify, this`received
      ensures Valid() && (View(), r) == Receive(old(View()), d, room)
    {
      if d < 0 || d >= descs.Length || !descs[d].active {
        return Failed(EBADF);
      }
      assert DescInv(View(), d);
      var q := descs[d].queue;
      if room.NoBuffer? {
        return Failed(EINVAL);
      }
      if descs[d].access.WrOnly? {
        return Failed(EBADF);
      }
      DeregisterKeepsInv(View(), q);
      notify[q] := notify[q].(registered := false, pid := 0);
      assert View() == Deregistered(old(View()), q);
      r := Take(q, room.len);
    }

    /** The queue part of a receive that goes through. */
    method Dequeue(q: nat, m: Msg, ghost was: Queue)
      requires Linked() && q < pool.Length && lists.heads[q] != 0 && was == View().pool[q]
      requires was.msgs != [] ==> m == was.msgs[0]
      modifies pool, lists, lists.heads, this`received
      ensures Linked() && was.msgs != []
      ensures View() == SetQueue(old(View()), q, was.(msgs := was.msgs[1..], curmsgs := was.curmsgs - 1))
                          .(received := old(received) + [was.msgs[0].stamp])
    {
      lists.First(q);
      SetTwice(View(), q, was.msgs[1..], was.(msgs := was.msgs[1..], curmsgs := was.curmsgs - 1));
      PopMsg(q);
      SetFields(q, pool[q].(curmsgs := pool[q].curmsgs - 1));
      received := received + [m.stamp];
    }

    /** mq_receive from its waiting loop on. */
    method Take(q: nat, len: nat) returns (r: Result)
      requires Valid() && q < pool.Length
      modifies pool, lists, lists.heads, this`received
      ensures Valid() && (View(), r) == TakeMsg(old(View()), q, len)
    {
      TakeKeepsInv(View(), q, len);
      lists.First(q);
      if lists.heads[q] == 0 {
        return if pool[q].nonblock then Failed(EAGAIN) else Blocks;
      }
      var m := lists.heap[lists.heads[q]].msg;
      if len < |m.data| {
        return Failed(EMSGSIZE);
      }
      Dequeue(q, m, View().pool[q]);
      r := Message(m);
    }

    method MqNotify(d: int, req: Request, pid: nat) returns (r: Result)
      requires Valid()
      modifies notify, this`nextId
      ensures Valid() && (View(), r) == Notification(old(View()), d, req, pid)
    {
      ApplyKeepsInv(View(), Call.MqNotify(d, req, pid));
      if d < 0 || d >= descs.Length || !descs[d].active {
        return Failed(EBADF);
      }
      assert DescInv(View(), d);
      var q := descs[d].queue;
      if req.Deregister? {
        if notify[q].registered && notify[q].pid == pid {
          notify[q] := notify[q].(registered := false, pid := 0);
        }
        return Ok(0);
      }
      if notify[q].registered {
        return Failed(EBUSY);
      }
      notify[q] := Notify(true, pid, nextId);
      nextId := nextId + 1;
      r := Ok(0);
    }
  }
}
