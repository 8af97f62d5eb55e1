/**
 * The messages of the queues: the order they leave in, and the linked lists that hold them.
 * All lists live in one heap of nodes; a message is inserted by writing through a pointer to
 * the head or to the next field it belongs in.
 */
module MessageList {

  import opened Octets

  /** `stamp` numbers the sent messages; it exists for the specification only. */
  datatype Msg = Msg(data: seq<byte>, prio: nat, stamp: nat)

  // ---------------------------------------------------------------- the priority list

  /** How many leading messages have at least the given priority. */
  function InsertAt(msgs: seq<Msg>, prio: nat, i: nat): (r: nat)
    requires i <= |msgs|
    ensures i <= r <= |msgs|
    ensures r < |msgs| ==> msgs[r].prio < prio
    ensures forall j :: i <= j < r ==> msgs[j].prio >= prio
    decreases |msgs| - i
  {
    if i == |msgs| || msgs[i].prio < prio then i else InsertAt(msgs, prio, i + 1)
  }

  function Inserted<T>(s: seq<T>, i: nat, x: T): (r: seq<T>)
    requires i <= |s|
    ensures |r| == |s| + 1
    ensures forall j :: 0 <= j < |r| ==> r[j] == if j < i then s[j] else if j == i then x else s[j - 1]
  {
    s[..i] + [x] + s[i..]
  }

  function Insert(msgs: seq<Msg>, m: Msg): seq<Msg> { Inserted(msgs, InsertAt(msgs, m.prio, 0), m) }

  /** m leaves before n: higher priority first, first sent first within a priority. */
  predicate Before(m: Msg, n: Msg) { m.prio > n.prio || (m.prio == n.prio && m.stamp < n.stamp) }

  predicate Ordered(msgs: seq<Msg>) {
    forall i, j :: 0 <= i < j < |msgs| ==> Before(msgs[i], msgs[j])
  }

  /** A newly sent message goes after everything that must leave before it and before the rest. */
  lemma {:induction false} InsertKeepsOrder(msgs: seq<Msg>, m: Msg)
    requires Ordered(msgs)
    requires forall i :: 0 <= i < |msgs| ==> msgs[i].stamp < m.stamp
    ensures Ordered(Insert(msgs, m))
  {
    var i := InsertAt(msgs, m.prio, 0);
    var r := Insert(msgs, m);
    forall j | 0 <= j < |msgs|
      ensures j < i ==> Before(msgs[j], m)
      ensures j >= i ==> Before(m, msgs[j])
    {
      assert j > i ==> Before(msgs[i], msgs[j]);
    }
    forall a, b | 0 <= a < b < |r|
      ensures Before(r[a], r[b])
    {
      assert r[a] == if a < i then msgs[a] else if a == i then m else msgs[a - 1];
      assert r[b] == if b < i then msgs[b] else if b == i then m else msgs[b - 1];
    }
  }

  lemma InsertContents(msgs: seq<Msg>, m: Msg)
    ensures |Insert(msgs, m)| == |msgs| + 1
    ensures multiset(Insert(msgs, m)) == multiset(msgs) + multiset{m}
    ensures forall x :: x in Insert(msgs, m) <==> x == m || x in msgs
  {
    var i := InsertAt(msgs, m.prio, 0);
    assert msgs == msgs[..i] + msgs[i..];
  }

  // ---------------------------------------------------------------- lists in the heap

  datatype Node = Node(msg: Msg, next: nat)

  type Heap = map<nat, Node>

  /** A __jacl_mq_node_t **: the address of a queue's head or of a node's next field. */
  datatype Slot = HeadSlot | NextOf(node: nat)

  /** The i-th address, null behind the last. */
  function Addr(ps: seq<nat>, i: nat): nat
    requires i <= |ps|
  {
    if i < |ps| then ps[i] else 0
  }

  /** The slot that holds the i-th address. */
  function SlotAt(ps: seq<nat>, i: nat): Slot
    requires i <= |ps|
  {
    if i == 0 then HeadSlot else NextOf(ps[i - 1])
  }

  /** From head, the next fields run through the addresses ps to null, and no address occurs twice. */
  ghost predicate Linked(head: nat, heap: Heap, ps: seq<nat>) {
    && head == Addr(ps, 0)
    && (forall i: nat :: i < |ps| ==> NodeAt(heap, ps, i))
    && Distinct(ps)
  }

  /** The i-th node is there and points to the next one. */
  predicate NodeAt(heap: Heap, ps: seq<nat>, i: nat)
    requires i < |ps|
  {
    ps[i] != 0 && ps[i] in heap && heap[ps[i]].next == Addr(ps, i + 1)
  }

  predicate Distinct(ps: seq<nat>) { forall i, j :: 0 <= i < j < |ps| ==> ps[i] != ps[j] }

  ghost predicate Contents(heap: Heap, ps: seq<nat>, ms: seq<Msg>) {
    |ms| == |ps| && forall i :: 0 <= i < |ps| ==> ps[i] in heap && heap[ps[i]].msg == ms[i]
  }

  /** One list: its links and its messages. */
  ghost predicate Holds(head: nat, heap: Heap, ps: seq<nat>, ms: seq<Msg>) {
    Linked(head, heap, ps) && Contents(heap, ps, ms)
  }

  ghost predicate Apart(ps: seq<nat>, rs: seq<nat>) { forall a :: a in ps ==> a !in rs }

  /** The lists share no node, and there is no node besides theirs. */
  ghost predicate Partition(heap: Heap, addrs: seq<seq<nat>>) {
    && (forall q, r :: 0 <= q < |addrs| && 0 <= r < |addrs| && q != r ==> Apart(addrs[q], addrs[r]))
    && forall a :: a in heap ==> exists q :: 0 <= q < |addrs| && a in addrs[q]
  }

  ghost predicate AgreeOn(heap: Heap, heap': Heap, ps: seq<nat>) {
    forall a :: a in ps && a in heap ==> a in heap' && heap'[a] == heap[a]
  }

  lemma HoldsElsewhere(head: nat, heap: Heap, heap': Heap, ps: seq<nat>, ms: seq<Msg>)
    requires Holds(head, heap, ps, ms) && AgreeOn(heap, heap', ps)
    ensures Holds(head, heap', ps, ms)
  {
    forall i: nat | i < |ps|
      ensures NodeAt(heap', ps, i)
    {
      assert NodeAt(heap, ps, i) && ps[i] in ps;
    }
  }

  function Load(head: nat, heap: Heap, slot: Slot): nat
    requires slot.NextOf? ==> slot.node in heap
  {
    match slot case HeadSlot => head case NextOf(n) => heap[n].next
  }

  function StoreHead(head: nat, slot: Slot, p: nat): nat { if slot.HeadSlot? then p else head }

  function StoreHeap(heap: Heap, slot: Slot, p: nat): Heap
    requires slot.NextOf? ==> slot.node in heap
  {
    match slot case HeadSlot => heap case NextOf(n) => heap[n := heap[n].(next := p)]
  }

  /** A heap with a new node at a, in front of the i-th, to which the slot in front now points. */
  ghost predicate Stored(heap: Heap, heap': Heap, ps: seq<nat>, i: nat, a: nat, m: Msg)
    requires i <= |ps|
  {
    && a in heap' && heap'[a] == Node(m, Addr(ps, i))
    && (i > 0 ==> ps[i - 1] in heap && ps[i - 1] in heap' && heap'[ps[i - 1]] == Node(heap[ps[i - 1]].msg, a))
    && (forall b :: b in heap && (i == 0 || b != ps[i - 1]) ==> b in heap' && heap'[b] == heap[b])
    && heap'.Keys == heap.Keys + {a}
  }

  lemma StoreIsStored(heap: Heap, ps: seq<nat>, i: nat, a: nat, m: Msg)
    requires i <= |ps| && a !in heap && (i > 0 ==> ps[i - 1] in heap)
    ensures Stored(heap, StoreHeap(heap[a := Node(m, Addr(ps, i))], SlotAt(ps, i), a), ps, i, a, m)
  {
  }

  lemma {:induction false} StoredLinks(head: nat, heap: Heap, heap': Heap, ps: seq<nat>, i: nat, a: nat, m: Msg)
    requires Linked(head, heap, ps) && i <= |ps| && a != 0 && a !in heap && Stored(heap, heap', ps, i, a, m)
    ensures Linked(if i == 0 then a else head, heap', Inserted(ps, i, a))
  {
    var ps' := Inserted(ps, i, a);
    NewIsNoNode(head, heap, ps, a);
    InsertedDistinct(ps, i, a);
    forall j | 0 <= j < |ps'|
      ensures NodeAt(heap', ps', j)
    {
      StoredLink(head, heap, heap', ps, i, a, m, ps', j);
    }
  }

  lemma NewIsNoNode(head: nat, heap: Heap, ps: seq<nat>, a: nat)
    requires Linked(head, heap, ps) && a !in heap
    ensures a !in ps
  {
    forall i: nat | i < |ps|
      ensures ps[i] != a
    {
      assert NodeAt(heap, ps, i);
    }
  }

  lemma {:induction false} StoredLink(head: nat, heap: Heap, heap': Heap, ps: seq<nat>, i: nat, a: nat, m: Msg,
                                      ps': seq<nat>, j: nat)
    requires Linked(head, heap, ps) && i <= |ps| && a != 0 && a !in heap && Stored(heap, heap', ps, i, a, m)
    requires ps' == Inserted(ps, i, a) && j < |ps'|
    ensures NodeAt(heap', ps', j)
  {
    if j < i {
      assert NodeAt(heap, ps, j);
      assert ps'[j] == ps[j];
      assert Addr(ps', j + 1) == if j + 1 == i then a else ps[j + 1];
    } else {
      assert Addr(ps', j + 1) == Addr(ps, j);
      if j > i {
        assert NodeAt(heap, ps, j - 1);
        assert ps'[j] == ps[j - 1];
        assert i > 0 ==> ps[i - 1] != ps[j - 1];
      }
    }
  }

  lemma InsertedDistinct(ps: seq<nat>, i: nat, a: nat)
    requires Distinct(ps) && i <= |ps| && a !in ps
    ensures Distinct(Inserted(ps, i, a))
  {
  }

  lemma {:induction false} StoredContents(head: nat, heap: Heap, heap': Heap, ps: seq<nat>, ms: seq<Msg>, i: nat, a: nat, m: Msg)
    requires Linked(head, heap, ps) && Contents(heap, ps, ms)
    requires i <= |ps| && a !in heap && Stored(heap, heap', ps, i, a, m)
    ensures Contents(heap', Inserted(ps, i, a), Inserted(ms, i, m))
  {
    var ps', ms' := Inserted(ps, i, a), Inserted(ms, i, m);
    forall j | 0 <= j < |ps'|
      ensures ps'[j] in heap' && heap'[ps'[j]].msg == ms'[j]
    {
      if j < i {
        assert ps'[j] == ps[j] && ms'[j] == ms[j];
      } else if j > i {
        assert ps'[j] == ps[j - 1] && ms'[j] == ms[j - 1];
      }
    }
  }

  lemma {:induction false} InsertKeepsPartition(heap: Heap, heap': Heap, addrs: seq<seq<nat>>, q: nat, i: nat, a: nat)
    requires Partition(heap, addrs) && q < |addrs| && i <= |addrs[q]|
    requires forall r :: 0 <= r < |addrs| ==> a !in addrs[r]
    requires heap'.Keys == heap.Keys + {a}
    ensures Partition(heap', addrs[q := Inserted(addrs[q], i, a)])
  {
    var ps := addrs[q];
    var addrs' := addrs[q := Inserted(ps, i, a)];
    InsertedMembers(ps, i, a);
    forall b | b in heap'
      ensures exists r :: 0 <= r < |addrs'| && b in addrs'[r]
    {
      if b == a {
        assert a in addrs'[q];
      } else {
        var r :| 0 <= r < |addrs| && b in addrs[r];
        assert b in addrs'[r];
      }
    }
  }

  lemma InsertedMembers(ps: seq<nat>, i: nat, a: nat)
    requires i <= |ps|
    ensures forall b :: b in Inserted(ps, i, a) <==> b == a || b in ps
  {
    assert ps == ps[..i] + ps[i..];
  }

  /** Freeing a list's first node leaves the rest of it. */
  lemma {:induction false} PopLinks(head: nat, heap: Heap, ps: seq<nat>, ms: seq<Msg>)
    requires Holds(head, heap, ps, ms) && head != 0
    ensures ps != [] && head == ps[0] && head in heap && heap[head].msg == ms[0]
    ensures Holds(heap[head].next, heap - {head}, ps[1..], ms[1..])
  {
    assert NodeAt(heap, ps, 0);
    forall j: nat | j < |ps[1..]|
      ensures NodeAt(heap - {head}, ps[1..], j)
    {
      PopLink(head, heap, ps, ps[1..], j);
    }
    PopContents(head, heap, ps, ms);
  }

  lemma {:induction false} PopLink(head: nat, heap: Heap, ps: seq<nat>, rest: seq<nat>, j: nat)
    requires Linked(head, heap, ps) && ps != [] && head == ps[0] && rest == ps[1..] && j < |rest|
    ensures NodeAt(heap - {head}, rest, j)
  {
    assert NodeAt(heap, ps, j + 1) && rest[j] == ps[j + 1];
    assert Addr(rest, j + 1) == Addr(ps, j + 2);
  }

  lemma {:induction false} PopContents(head: nat, heap: Heap, ps: seq<nat>, ms: seq<Msg>)
    requires Linked(head, heap, ps) && Contents(heap, ps, ms) && ps != [] && head == ps[0]
    ensures Contents(heap - {head}, ps[1..], ms[1..])
  {
    forall j | 0 <= j < |ps[1..]|
      ensures ps[1..][j] in heap - {head} && heap[ps[1..][j]].msg == ms[1..][j]
    {
      assert ps[1..][j] == ps[j + 1] != ps[0];
    }
  }

  lemma {:induction false} PopKeepsPartition(heap: Heap, addrs: seq<seq<nat>>, q: nat)
    requires Partition(heap, addrs) && q < |addrs| && addrs[q] != []
    requires forall j :: 0 < j < |addrs[q]| ==> addrs[q][j] != addrs[q][0]
    ensures Partition(heap - {addrs[q][0]}, addrs[q := addrs[q][1..]])
  {
    var ps := addrs[q];
    var addrs' := addrs[q := ps[1..]];
    assert ps == [ps[0]] + ps[1..];
    forall b | b in heap - {ps[0]}
      ensures exists r :: 0 <= r < |addrs'| && b in addrs'[r]
    {
      var r :| 0 <= r < |addrs| && b in addrs[r];
      assert b in addrs'[r];
    }
  }

  /** The lists of all queues; `ms` is what they hold, `addrs` where. */
  ghost predicate All(heads: seq<nat>, heap: Heap, addrs: seq<seq<nat>>, ms: seq<seq<Msg>>) {
    && |addrs| == |ms| == |heads|
    && (forall q: nat :: q < |heads| ==> ListAt(heads, heap, addrs, ms, q))
    && Partition(heap, addrs)
  }

  ghost predicate ListAt(heads: seq<nat>, heap: Heap, addrs: seq<seq<nat>>, ms: seq<seq<Msg>>, q: nat)
    requires q < |addrs| == |ms| == |heads|
  {
    Holds(heads[q], heap, addrs[q], ms[q])
  }

  lemma NewIsNowhere(heads: seq<nat>, heap: Heap, addrs: seq<seq<nat>>, ms: seq<seq<Msg>>, a: nat)
    requires All(heads, heap, addrs, ms) && a !in heap
    ensures forall q :: 0 <= q < |addrs| ==> a !in addrs[q]
  {
    forall q | 0 <= q < |addrs|
      ensures a !in addrs[q]
    {
      assert ListAt(heads, heap, addrs, ms, q);
      NewIsNoNode(heads[q], heap, addrs[q], a);
    }
  }

  /** One list changes, and the heap only at its nodes. */
  lemma {:induction false} OneChanges(heads: seq<nat>, heap: Heap, addrs: seq<seq<nat>>, ms: seq<seq<Msg>>, q: nat,
                                      head': nat, heap': Heap, ps': seq<nat>, ms': seq<Msg>)
    requires All(heads, heap, addrs, ms) && q < |heads|
    requires Holds(head', heap', ps', ms') && Partition(heap', addrs[q := ps'])
    requires forall b :: b in heap && b !in addrs[q] ==> b in heap' && heap'[b] == heap[b]
    ensures All(heads[q := head'], heap', addrs[q := ps'], ms[q := ms'])
  {
    var heads', rows', all' := heads[q := head'], addrs[q := ps'], ms[q := ms'];
    forall r: nat | r < |heads|
      ensures ListAt(heads', heap', rows', all', r)
    {
      if r != q {
        assert ListAt(heads, heap, addrs, ms, r) && Apart(addrs[r], addrs[q]);
        HoldsElsewhere(heads[r], heap, heap', addrs[r], ms[r]);
      }
    }
  }

  /** A new node that points to what the slot held, stored through the slot, stands there in the list. */
  lemma {:induction false} StoreInserts(heads: seq<nat>, heap: Heap, addrs: seq<seq<nat>>, ms: seq<seq<Msg>>, q: nat, i: nat,
                                        a: nat, m: Msg)
    requires All(heads, heap, addrs, ms) && q < |heads| && i <= |addrs[q]| == |ms[q]| && a != 0 && a !in heap
    ensures SlotAt(addrs[q], i).NextOf? ==> SlotAt(addrs[q], i).node in heap
    ensures var pp := SlotAt(addrs[q], i);
            All(heads[q := StoreHead(heads[q], pp, a)], StoreHeap(heap[a := Node(m, Addr(addrs[q], i))], pp, a),
                addrs[q := Inserted(addrs[q], i, a)], ms[q := Inserted(ms[q], i, m)])
  {
    var ps, pp := addrs[q], SlotAt(addrs[q], i);
    assert ListAt(heads, heap, addrs, ms, q);
    assert i > 0 ==> NodeAt(heap, ps, i - 1);
    var head', heap' := StoreHead(heads[q], pp, a), StoreHeap(heap[a := Node(m, Addr(ps, i))], pp, a);
    StoreIsStored(heap, ps, i, a, m);
    StoredLinks(heads[q], heap, heap', ps, i, a, m);
    StoredContents(heads[q], heap, heap', ps, ms[q], i, a, m);
    NewIsNowhere(heads, heap, addrs, ms, a);
    InsertKeepsPartition(heap, heap', addrs, q, i, a);
    OneChanges(heads, heap, addrs, ms, q, head', heap', Inserted(ps, i, a), Inserted(ms[q], i, m));
  }

  /** Taking a list's first node off it and freeing that leaves the rest. */
  lemma {:induction false} PopTakesFirst(heads: seq<nat>, heap: Heap, addrs: seq<seq<nat>>, ms: seq<seq<Msg>>, q: nat)
    requires All(heads, heap, addrs, ms) && q < |heads| && heads[q] != 0
    ensures addrs[q] != [] && ms[q] != [] && heads[q] == addrs[q][0] && heads[q] in heap && heap[heads[q]].msg == ms[q][0]
    ensures All(heads[q := heap[heads[q]].next], heap - {heads[q]}, addrs[q := addrs[q][1..]], ms[q := ms[q][1..]])
  {
    assert ListAt(heads, heap, addrs, ms, q);
    PopLinks(heads[q], heap, addrs[q], ms[q]);
    PopKeepsPartition(heap, addrs, q);
    OneChanges(heads, heap, addrs, ms, q, heap[heads[q]].next, heap - {heads[q]}, addrs[q][1..], ms[q][1..]);
  }

  lemma UpdateTwice<T>(s: seq<T>, q: nat, x: T, y: T)
    requires q < |s|
    ensures s[q := x][q] == x && s[q := x][q := y] == s[q := y]
  {
  }

  class Lists {
    const heads: array<nat>
    var heap: Heap
    ghost var addrs: seq<seq<nat>>
    ghost var msgs: seq<seq<Msg>>

    ghost predicate Valid()
      reads this, heads
    {
      All(heads[..], heap, addrs, msgs)
    }

    constructor (n: nat)
      ensures Valid() && fresh(heads) && heads.Length == n && msgs == seq(n, _ => []) && heap == map[]
    {
      heads := new nat[n](_ => 0);
      heap, addrs, msgs := map[], seq(n, _ => []), seq(n, _ => []);
    }

    /** mq_send's walk to the slot in front of the first message of lower priority. */
    method Walk(q: nat, prio: nat, ghost ps: seq<nat>, ghost ms: seq<Msg>) returns (pp: Slot, ghost i: nat)
      requires q < heads.Length && Holds(heads[q], heap, ps, ms)
      ensures i == InsertAt(ms, prio, 0) && pp == SlotAt(ps, i)
      ensures pp.NextOf? ==> pp.node in heap
      ensures Load(heads[q], heap, pp) == Addr(ps, i)
    {
      pp, i := HeadSlot, 0;
      var p := heads[q];
      assert ps != [] ==> NodeAt(heap, ps, 0);
      while p != 0 && heap[p].msg.prio >= prio
        invariant i <= |ps| == |ms| && pp == SlotAt(ps, i) && (pp.NextOf? ==> pp.node in heap)
        invariant p == Load(heads[q], heap, pp) == Addr(ps, i)
        invariant i < |ps| ==> NodeAt(heap, ps, i)
        invariant InsertAt(ms, prio, 0) == InsertAt(ms, prio, i)
        decreases |ps| - i
      {
        pp, i := NextOf(p), i + 1;
        p := heap[p].next;
        assert i < |ps| ==> NodeAt(heap, ps, i);
      }
    }

    /** Point the new node to what the slot holds, and the slot to the new node. */
    method StoreNode(q: nat, m: Msg, node: nat, pp: Slot, ghost i: nat)
      requires Valid() && q < heads.Length && node != 0 && node !in heap
      requires i <= |addrs[q]| == |msgs[q]| && pp == SlotAt(addrs[q], i) && (pp.NextOf? ==> pp.node in heap)
      requires Load(heads[q], heap, pp) == Addr(addrs[q], i)
      modifies this, heads
      ensures Valid() && msgs == old(msgs)[q := Inserted(old(msgs)[q], i, m)]
    {
      StoreInserts(heads[..], heap, addrs, msgs, q, i, node, m);
      var grown := heap[node := Node(m, Load(heads[q], heap, pp))];
      heads[q], heap := StoreHead(heads[q], pp, node), StoreHeap(grown, pp, node);
      addrs, msgs := addrs[q := Inserted(addrs[q], i, node)], msgs[q := Inserted(msgs[q], i, m)];
    }

    /** mq_send's insertion; `node` is what malloc has returned. */
    method Link(q: nat, m: Msg, node: nat)
      requires Valid() && q < heads.Length && node != 0 && node !in heap
      modifies this, heads
      ensures Valid() && msgs == old(msgs)[q := Insert(old(msgs)[q], m)]
    {
      assert ListAt(heads[..], heap, addrs, msgs, q);
      var pp, i := Walk(q, m.prio, addrs[q], msgs[q]);
      StoreNode(q, m, node, pp, i);
    }

    /** A list is empty exactly when its head is null; otherwise the head's node has the first message. */
    lemma First(q: nat)
      requires Valid() && q < heads.Length
      ensures |msgs| == heads.Length
      ensures heads[q] == 0 <==> msgs[q] == []
      ensures heads[q] != 0 ==> heads[q] in heap && heap[heads[q]].msg == msgs[q][0]
    {
      assert ListAt(heads[..], heap, addrs, msgs, q);
      assert msgs[q] != [] ==> NodeAt(heap, addrs[q], 0);
    }

    /** Take the first node off a list and free it. */
    method Pop(q: nat)
      requires Valid() && q < heads.Length && heads[q] != 0
      modifies this, heads
      ensures Valid() && old(msgs)[q] != [] && msgs == old(msgs)[q := old(msgs)[q][1..]]
    {
      var node := heads[q];
      First(q);
      PopTakesFirst(heads[..], heap, addrs, msgs, q);
      heads[q], heap := heap[node].next, heap - {node};
      addrs, msgs := addrs[q := addrs[q][1..]], msgs[q := msgs[q][1..]];
    }

    /** __jacl_mq_destroy's loop. */
    method Clear(q: nat)
      requires Valid() && q < heads.Length
      modifies this, heads
      ensures Valid() && msgs == old(msgs)[q := []]
    {
      First(q);
      ghost var was, left := msgs, msgs[q];
      while heads[q] != 0
        invariant Valid() && |was| == heads.Length && msgs == was[q := left] && (heads[q] == 0 <==> left == [])
        decreases |left|
      {
        Pop(q);
        UpdateTwice(was, q, left, left[1..]);
        left := left[1..];
        First(q);
      }
    }
  }
}
