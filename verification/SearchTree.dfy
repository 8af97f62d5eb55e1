/**
 * tfind, tsearch and tdelete: a binary search tree of malloc'ed nodes relinked through a
 * pointer to a pointer. The heap is explicit: addresses are naturals, 0 is NULL, malloc
 * may fail, and free removes the cell, so every dereference is proved to hit a live cell.
 */
module SearchTree {

  // ---------------------------------------------------------------- the order

  /** compar is a total order: consistent under swapping, transitive, 0 only on equal keys. */
  ghost predicate TotalOrder<K(!new)>(cmp: (K, K) -> int) {
    && (forall a, b :: cmp(a, b) == 0 <==> a == b)
    && (forall a, b :: cmp(a, b) < 0 <==> cmp(b, a) > 0)
    && (forall a, b, c :: cmp(a, b) < 0 && cmp(b, c) < 0 ==> cmp(a, c) < 0)
  }

  // ---------------------------------------------------------------- trees as values

  /** A tree with the address of each node. */
  datatype Tree<K> = Leaf | Branch(addr: nat, key: K, left: Tree<K>, right: Tree<K>)

  function Ptr<K>(t: Tree<K>): nat { if t.Leaf? then 0 else t.addr }

  ghost function Keys<K>(t: Tree<K>): set<K> {
    if t.Leaf? then {} else Keys(t.left) + {t.key} + Keys(t.right)
  }

  function InOrder<K>(t: Tree<K>): seq<K> {
    if t.Leaf? then [] else InOrder(t.left) + [t.key] + InOrder(t.right)
  }

  ghost predicate AllBelow<K(!new)>(cmp: (K, K) -> int, t: Tree<K>, k: K) {
    forall x :: x in Keys(t) ==> cmp(x, k) < 0
  }

  ghost predicate AllAbove<K(!new)>(cmp: (K, K) -> int, t: Tree<K>, k: K) {
    forall x :: x in Keys(t) ==> cmp(k, x) < 0
  }

  ghost predicate Bst<K(!new)>(cmp: (K, K) -> int, t: Tree<K>) {
    t.Branch? ==>
      && AllBelow(cmp, t.left, t.key) && AllAbove(cmp, t.right, t.key)
      && Bst(cmp, t.left) && Bst(cmp, t.right)
  }

  /** The subtree at which the search for k stops: k's node, or the leaf where k would go. */
  function Lookup<K>(cmp: (K, K) -> int, t: Tree<K>, k: K): Tree<K> {
    if t.Leaf? || cmp(k, t.key) == 0 then t
    else if cmp(k, t.key) < 0 then Lookup(cmp, t.left, k)
    else Lookup(cmp, t.right, k)
  }

  /** The search for k followed by replacing the subtree it stops at. */
  function Graft<K>(cmp: (K, K) -> int, t: Tree<K>, k: K, sub: Tree<K>): Tree<K> {
    if t.Leaf? || cmp(k, t.key) == 0 then sub
    else if cmp(k, t.key) < 0 then t.(left := Graft(cmp, t.left, k, sub))
    else t.(right := Graft(cmp, t.right, k, sub))
  }

  function MinKey<K>(t: Tree<K>): K
    requires t.Branch?
  {
    if t.left.Leaf? then t.key else MinKey(t.left)
  }

  function DeleteMin<K>(t: Tree<K>): Tree<K>
    requires t.Branch?
  {
    if t.left.Leaf? then t.right else t.(left := DeleteMin(t.left))
  }

  /** What remains of a subtree when its root key is deleted. */
  function DeleteRoot<K>(t: Tree<K>): Tree<K>
    requires t.Branch?
  {
    if t.left.Branch? && t.right.Branch? then t.(key := MinKey(t.right), right := DeleteMin(t.right))
    else if t.left.Branch? then t.left
    else t.right
  }

  function Insert<K>(cmp: (K, K) -> int, t: Tree<K>, k: K, addr: nat): Tree<K> {
    if Lookup(cmp, t, k).Branch? then t else Graft(cmp, t, k, Branch(addr, k, Leaf, Leaf))
  }

  function Delete<K>(cmp: (K, K) -> int, t: Tree<K>, k: K): Tree<K> {
    var sub := Lookup(cmp, t, k);
    if sub.Leaf? then t else Graft(cmp, t, k, DeleteRoot(sub))
  }

  // ---------------------------------------------------------------- search-tree laws

  lemma {:induction false} LookupIsMembership<K(!new)>(cmp: (K, K) -> int, t: Tree<K>, k: K)
    requires TotalOrder(cmp) && Bst(cmp, t)
    ensures Lookup(cmp, t, k).Branch? <==> k in Keys(t)
    ensures Lookup(cmp, t, k).Branch? ==> Lookup(cmp, t, k).key == k
    ensures Bst(cmp, Lookup(cmp, t, k))
  {
    if t.Branch? {
      LookupIsMembership(cmp, t.left, k);
      LookupIsMembership(cmp, t.right, k);
    }
  }

  /** No key occurs twice. */
  ghost predicate KeysApart<K>(t: Tree<K>) {
    t.Branch? ==>
      && Keys(t.left) !! Keys(t.right) && t.key !in Keys(t.left) && t.key !in Keys(t.right)
      && KeysApart(t.left) && KeysApart(t.right)
  }

  lemma {:induction false} BstKeysApart<K(!new)>(cmp: (K, K) -> int, t: Tree<K>)
    requires TotalOrder(cmp) && Bst(cmp, t)
    ensures KeysApart(t)
  {
    if t.Branch? {
      BstKeysApart(cmp, t.left);
      BstKeysApart(cmp, t.right);
      assert cmp(t.key, t.key) == 0;
      forall x | x in Keys(t.left)
        ensures x !in Keys(t.right)
      {
        assert cmp(x, t.key) < 0;
      }
    }
  }

  lemma {:induction false} DeleteMinKeys<K>(t: Tree<K>)
    requires t.Branch? && KeysApart(t)
    ensures MinKey(t) in Keys(t)
    ensures Keys(DeleteMin(t)) == Keys(t) - {MinKey(t)}
  {
    if t.left.Branch? {
      DeleteMinKeys(t.left);
    }
  }

  lemma {:induction false} DeleteMinRemovesLeast<K(!new)>(cmp: (K, K) -> int, t: Tree<K>)
    requires forall a, b, c :: cmp(a, b) < 0 && cmp(b, c) < 0 ==> cmp(a, c) < 0
    requires t.Branch? && KeysApart(t) && Bst(cmp, t)
    ensures Bst(cmp, DeleteMin(t)) && AllAbove(cmp, DeleteMin(t), MinKey(t))
  {
    if t.left.Branch? {
      DeleteMinRemovesLeast(cmp, t.left);
      DeleteMinKeys(t.left);
      assert cmp(MinKey(t), t.key) < 0;
      forall x | x in Keys(t.right)
        ensures cmp(MinKey(t), x) < 0
      {
        assert cmp(t.key, x) < 0;
      }
    }
  }

  lemma {:induction false} DeleteRootKeys<K>(t: Tree<K>)
    requires t.Branch? && KeysApart(t)
    requires t.right.Branch? ==>
      MinKey(t.right) in Keys(t.right) && Keys(DeleteMin(t.right)) == Keys(t.right) - {MinKey(t.right)}
    ensures Keys(DeleteRoot(t)) == Keys(t) - {t.key}
  {
  }

  lemma {:induction false} DeleteRootRemovesKey<K(!new)>(cmp: (K, K) -> int, t: Tree<K>)
    requires TotalOrder(cmp) && Bst(cmp, t) && t.Branch?
    ensures Keys(DeleteRoot(t)) == Keys(t) - {t.key}
    ensures Bst(cmp, DeleteRoot(t))
  {
    BstKeysApart(cmp, t);
    if t.right.Branch? {
      DeleteMinRemovesLeast(cmp, t.right);
      DeleteMinKeys(t.right);
      BelowMin(cmp, t);
    }
    DeleteRootKeys(t);
  }

  lemma {:induction false} BelowMin<K(!new)>(cmp: (K, K) -> int, t: Tree<K>)
    requires TotalOrder(cmp) && KeysApart(t) && Bst(cmp, t) && t.Branch? && t.right.Branch?
    ensures AllBelow(cmp, t.left, MinKey(t.right))
  {
    DeleteMinKeys(t.right);
    forall x | x in Keys(t.left)
      ensures cmp(x, MinKey(t.right)) < 0
    {
      assert cmp(x, t.key) < 0 && cmp(t.key, MinKey(t.right)) < 0;
    }
  }

  /** Grafting changes the key set only below the point where the search stops. */
  lemma {:induction false} GraftKeys<K>(cmp: (K, K) -> int, t: Tree<K>, k: K, sub: Tree<K>)
    requires KeysApart(t)
    ensures Keys(Graft(cmp, t, k, sub)) == Keys(t) - Keys(Lookup(cmp, t, k)) + Keys(sub)
    ensures Keys(Lookup(cmp, t, k)) <= Keys(t)
  {
    if t.Branch? && cmp(k, t.key) != 0 {
      GraftKeys(cmp, if cmp(k, t.key) < 0 then t.left else t.right, k, sub);
    }
  }

  lemma {:induction false} GraftKeepsBst<K(!new)>(cmp: (K, K) -> int, t: Tree<K>, k: K, sub: Tree<K>)
    requires forall a, b :: cmp(a, b) > 0 ==> cmp(b, a) < 0
    requires KeysApart(t) && Bst(cmp, t) && Bst(cmp, sub)
    requires forall x :: x in Keys(sub) ==> x == k || x in Keys(Lookup(cmp, t, k))
    ensures Bst(cmp, Graft(cmp, t, k, sub))
  {
    if t.Branch? && cmp(k, t.key) < 0 {
      GraftKeepsBst(cmp, t.left, k, sub);
      GraftKeys(cmp, t.left, k, sub);
    } else if t.Branch? && cmp(k, t.key) > 0 {
      GraftKeepsBst(cmp, t.right, k, sub);
      GraftKeys(cmp, t.right, k, sub);
    }
  }

  lemma {:induction false} InsertAddsKey<K(!new)>(cmp: (K, K) -> int, t: Tree<K>, k: K, addr: nat)
    requires TotalOrder(cmp) && Bst(cmp, t)
    ensures Bst(cmp, Insert(cmp, t, k, addr))
    ensures Keys(Insert(cmp, t, k, addr)) == Keys(t) + {k}
  {
    LookupIsMembership(cmp, t, k);
    BstKeysApart(cmp, t);
    if Lookup(cmp, t, k).Leaf? {
      GraftKeys(cmp, t, k, Branch(addr, k, Leaf, Leaf));
      GraftKeepsBst(cmp, t, k, Branch(addr, k, Leaf, Leaf));
    }
  }

  lemma {:induction false} DeleteRemovesKey<K(!new)>(cmp: (K, K) -> int, t: Tree<K>, k: K)
    requires TotalOrder(cmp) && Bst(cmp, t)
    ensures Bst(cmp, Delete(cmp, t, k))
    ensures Keys(Delete(cmp, t, k)) == Keys(t) - {k}
  {
    LookupIsMembership(cmp, t, k);
    BstKeysApart(cmp, t);
    var sub := Lookup(cmp, t, k);
    if sub.Branch? {
      DeleteRootRemovesKey(cmp, sub);
      GraftKeys(cmp, t, k, DeleteRoot(sub));
      GraftKeepsBst(cmp, t, k, DeleteRoot(sub));
    }
  }

  ghost predicate Increasing<K>(cmp: (K, K) -> int, s: seq<K>) {
    forall i, j :: 0 <= i < j < |s| ==> cmp(s[i], s[j]) < 0
  }

  lemma {:induction false} InOrderKeys<K>(t: Tree<K>)
    ensures forall k :: k in InOrder(t) <==> k in Keys(t)
  {
    if t.Branch? {
      InOrderKeys(t.left);
      InOrderKeys(t.right);
    }
  }

  /** Two increasing sequences with a key between them. */
  lemma Between<K(!new)>(cmp: (K, K) -> int, a: seq<K>, k: K, b: seq<K>)
    requires TotalOrder(cmp) && Increasing(cmp, a) && Increasing(cmp, b)
    requires (forall x :: x in a ==> cmp(x, k) < 0) && (forall x :: x in b ==> cmp(k, x) < 0)
    ensures Increasing(cmp, a + [k] + b)
  {
    var s := a + [k] + b;
    forall i, j | 0 <= i < j < |s|
      ensures cmp(s[i], s[j]) < 0
    {
      if i < |a| && j > |a| {
        assert cmp(s[i], k) < 0 && cmp(k, s[j]) < 0;
      }
    }
  }

  lemma {:induction false} InOrderIsSorted<K(!new)>(cmp: (K, K) -> int, t: Tree<K>)
    requires TotalOrder(cmp) && Bst(cmp, t)
    ensures Increasing(cmp, InOrder(t))
    ensures forall k :: k in InOrder(t) <==> k in Keys(t)
  {
    InOrderKeys(t);
    if t.Branch? {
      InOrderIsSorted(cmp, t.left);
      InOrderIsSorted(cmp, t.right);
      Between(cmp, InOrder(t.left), t.key, InOrder(t.right));
    }
  }

  // ---------------------------------------------------------------- the walk

  datatype Which = Preorder | Postorder | Endorder | Childless

  datatype Visit<K> = Visit(key: K, which: Which, depth: nat)

  /** __jacl_t_walk: the calls of the action, in order. */
  function Walk<K>(t: Tree<K>, d: nat): seq<Visit<K>> {
    if t.Leaf? then []
    else
      [Visit(t.key, Preorder, d)]
      + (if t.left.Leaf? && t.right.Leaf? then [Visit(t.key, Childless, d)] else [])
      + Walk(t.left, d + 1) + Walk(t.right, d + 1)
      + [Visit(t.key, Postorder, d), Visit(t.key, Endorder, d)]
  }

  /** The keys visited with `which`, in order. */
  function Seen<K>(vs: seq<Visit<K>>, which: Which): seq<K> {
    if vs == [] then [] else (if vs[0].which == which then [vs[0].key] else []) + Seen(vs[1..], which)
  }

  function PreOrder<K>(t: Tree<K>): seq<K> {
    if t.Leaf? then [] else [t.key] + PreOrder(t.left) + PreOrder(t.right)
  }

  function PostOrder<K>(t: Tree<K>): seq<K> {
    if t.Leaf? then [] else PostOrder(t.left) + PostOrder(t.right) + [t.key]
  }

  function Tips<K>(t: Tree<K>): seq<K> {
    if t.Leaf? then [] else if t.left.Leaf? && t.right.Leaf? then [t.key] else Tips(t.left) + Tips(t.right)
  }

  lemma {:induction false} SeenAppend<K>(a: seq<Visit<K>>, b: seq<Visit<K>>, which: Which)
    ensures Seen(a + b, which) == Seen(a, which) + Seen(b, which)
  {
    if a == [] {
      assert a + b == b;
    } else {
      var all := a + b;
      assert all[1..] == a[1..] + b && all[0] == a[0];
      SeenAppend(a[1..], b, which);
      var head := if a[0].which == which then [a[0].key] else [];
      assert Seen(all, which) == head + (Seen(a[1..], which) + Seen(b, which));
    }
  }

  lemma SeenOne<K>(v: Visit<K>, which: Which)
    ensures Seen([v], which) == if v.which == which then [v.key] else []
  {
    assert [v][1..] == [];
  }

  lemma SeenAppend5<K>(a: seq<Visit<K>>, b: seq<Visit<K>>, c: seq<Visit<K>>, d: seq<Visit<K>>, e: seq<Visit<K>>, which: Which)
    ensures Seen(a + b + c + d + e, which)
         == Seen(a, which) + Seen(b, which) + Seen(c, which) + Seen(d, which) + Seen(e, which)
  {
    SeenAppend(a, b, which);
    SeenAppend(a + b, c, which);
    SeenAppend(a + b + c, d, which);
    SeenAppend(a + b + c + d, e, which);
  }

  lemma SeenTwo<K>(v: Visit<K>, w: Visit<K>, which: Which)
    ensures Seen([v, w], which) == (if v.which == which then [v.key] else []) + (if w.which == which then [w.key] else [])
  {
    assert [v] + [w] == [v, w];
    SeenAppend([v], [w], which);
    SeenOne(v, which);
    SeenOne(w, which);
  }

  function Order<K>(t: Tree<K>, which: Which): seq<K> {
    match which
    case Preorder => PreOrder(t)
    case Postorder => PostOrder(t)
    case Endorder => PostOrder(t)
    case Childless => Tips(t)
  }

  /** A node's key and what its two subtrees show, in the order of one kind of visit. */
  function Arrange<K>(key: K, lone: bool, left: seq<K>, right: seq<K>, which: Which): seq<K> {
    (if which == Preorder then [key] else [])
    + (if which == Childless && lone then [key] else [])
    + left + right
    + (if which == Postorder || which == Endorder then [key] else [])
  }

  predicate Lone<K>(t: Tree<K>) requires t.Branch? { t.left.Leaf? && t.right.Leaf? }

  lemma {:induction false} SeenNode<K>(t: Tree<K>, d: nat, which: Which)
    requires t.Branch?
    ensures Seen(Walk(t, d), which)
         == Arrange(t.key, Lone(t), Seen(Walk(t.left, d + 1), which), Seen(Walk(t.right, d + 1), which), which)
  {
    var pre, tip := Visit(t.key, Preorder, d), Visit(t.key, Childless, d);
    var post, end := Visit(t.key, Postorder, d), Visit(t.key, Endorder, d);
    var b := if Lone(t) then [tip] else [];
    SeenAppend5([pre], b, Walk(t.left, d + 1), Walk(t.right, d + 1), [post, end], which);
    SeenOne(pre, which);
    SeenOne(tip, which);
    SeenTwo(post, end, which);
  }

  lemma {:induction false} OrderNode<K>(t: Tree<K>, which: Which)
    requires t.Branch?
    ensures Order(t, which) == Arrange(t.key, Lone(t), Order(t.left, which), Order(t.right, which), which)
  {
    var l, r := Order(t.left, which), Order(t.right, which);
    match which
    case Preorder => assert Arrange(t.key, Lone(t), l, r, which) == [t.key] + l + r;
    case Postorder => assert Arrange(t.key, Lone(t), l, r, which) == l + r + [t.key];
    case Endorder => assert Arrange(t.key, Lone(t), l, r, which) == l + r + [t.key];
    case Childless => assert Arrange(t.key, Lone(t), l, r, which) == if Lone(t) then [t.key] else l + r;
  }

  /** Each kind of visit reaches every node once, in that kind's order; the childless nodes get one more. */
  lemma {:induction false} WalkVisits<K>(t: Tree<K>, d: nat, which: Which)
    ensures Seen(Walk(t, d), which) == Order(t, which)
  {
    if t.Branch? {
      WalkVisits(t.left, d + 1, which);
      WalkVisits(t.right, d + 1, which);
      SeenNode(t, d, which);
      OrderNode(t, which);
    }
  }

  predicate NoRightChild<K>(t: Tree<K>) { t.Leaf? || (t.right.Leaf? && NoRightChild(t.left)) }

  lemma {:induction false} PostOrderKeys<K>(t: Tree<K>)
    ensures forall k :: k in PostOrder(t) <==> k in Keys(t)
  {
    if t.Branch? {
      PostOrderKeys(t.left);
      PostOrderKeys(t.right);
    }
  }

  lemma {:induction false} PostOrderSortedExactly<K(!new)>(cmp: (K, K) -> int, t: Tree<K>)
    requires TotalOrder(cmp) && Bst(cmp, t)
    ensures Increasing(cmp, PostOrder(t)) <==> NoRightChild(t)
  {
    if t.Branch? {
      PostOrderSortedExactly(cmp, t.left);
      if t.right.Branch? {
        RightChildBreaksOrder(cmp, t);
      } else {
        PostOrderKeys(t.left);
        LastAbove(cmp, PostOrder(t.left), t.key);
        assert PostOrder(t) == PostOrder(t.left) + [t.key];
      }
    }
  }

  /**
   * The postorder visit comes after both subtrees and not between them, so it lists the
   * keys in increasing order exactly when no node has a right child.
   */
  lemma {:induction false} WalkSortedExactly<K(!new)>(cmp: (K, K) -> int, t: Tree<K>, d: nat)
    requires TotalOrder(cmp) && Bst(cmp, t)
    ensures Increasing(cmp, Seen(Walk(t, d), Postorder)) <==> NoRightChild(t)
  {
    WalkVisits(t, d, Postorder);
    PostOrderSortedExactly(cmp, t);
  }

  lemma {:induction false} RightChildBreaksOrder<K(!new)>(cmp: (K, K) -> int, t: Tree<K>)
    requires TotalOrder(cmp) && Bst(cmp, t) && t.Branch? && t.right.Branch?
    ensures !Increasing(cmp, PostOrder(t))
  {
    var a, b := PostOrder(t.left), PostOrder(t.right);
    PostOrderKeys(t.right);
    var i, j := |a| + |b| - 1, |a| + |b|;
    assert PostOrder(t)[i] == b[|b| - 1] && b[|b| - 1] in Keys(t.right);
    assert PostOrder(t)[j] == t.key;
  }

  lemma {:induction false} LastAbove<K(!new)>(cmp: (K, K) -> int, s: seq<K>, k: K)
    requires forall x :: x in s ==> cmp(x, k) < 0
    ensures Increasing(cmp, s + [k]) <==> Increasing(cmp, s)
  {
    if Increasing(cmp, s + [k]) {
      forall i, j | 0 <= i < j < |s|
        ensures cmp(s[i], s[j]) < 0
      {
        assert (s + [k])[i] == s[i] && (s + [k])[j] == s[j];
      }
    }
  }

  // ---------------------------------------------------------------- trees in the heap

  datatype Cell<K> = Cell(key: K, left: nat, right: nat)

  type Heap<K> = map<nat, Cell<K>>

  /** A __jacl_tnode_t **: the address of the root pointer or of a child field. */
  datatype Slot = RootSlot | LeftOf(node: nat) | RightOf(node: nat)

  function Addrs<K>(t: Tree<K>): set<nat> {
    if t.Leaf? then {} else {t.addr} + Addrs(t.left) + Addrs(t.right)
  }

  /** The cells of t are in the heap, linked as t says, and no address occurs twice. */
  ghost predicate Shape<K>(heap: Heap<K>, t: Tree<K>) {
    t.Branch? ==>
      && t.addr != 0 && t.addr in heap
      && heap[t.addr] == Cell(t.key, Ptr(t.left), Ptr(t.right))
      && t.addr !in Addrs(t.left) && t.addr !in Addrs(t.right) && Addrs(t.left) !! Addrs(t.right)
      && Shape(heap, t.left) && Shape(heap, t.right)
  }

  lemma ChildIsNull<K>(heap: Heap<K>, t: Tree<K>)
    requires Shape(heap, t) && t.Branch?
    ensures heap[t.addr].left == 0 <==> t.left.Leaf?
    ensures heap[t.addr].right == 0 <==> t.right.Leaf?
  {
    assert Shape(heap, t.left) && Shape(heap, t.right);
  }

  /** A tree with a hole, from the hole upwards. */
  datatype Context<K> =
    | Top
    | InLeft(addr: nat, key: K, right: Tree<K>, up: Context<K>)
    | InRight(addr: nat, key: K, left: Tree<K>, up: Context<K>)

  function Frame<K>(c: Context<K>, t: Tree<K>): Tree<K>
    requires !c.Top?
  {
    if c.InLeft? then Branch(c.addr, c.key, t, c.right) else Branch(c.addr, c.key, c.left, t)
  }

  function Fill<K>(c: Context<K>, t: Tree<K>): Tree<K>
    decreases c
  {
    if c.Top? then t else Fill(c.up, Frame(c, t))
  }

  function SlotOf<K>(c: Context<K>): Slot {
    match c
    case Top => RootSlot
    case InLeft(a, _, _, _) => LeftOf(a)
    case InRight(a, _, _, _) => RightOf(a)
  }

  function ContextAddrs<K>(c: Context<K>): set<nat> {
    match c
    case Top => {}
    case InLeft(a, _, r, up) => {a} + Addrs(r) + ContextAddrs(up)
    case InRight(a, _, l, up) => {a} + Addrs(l) + ContextAddrs(up)
  }

  /** The cells around the hole are in the heap and the hole's pointer is `hole`. */
  ghost predicate ContextShape<K>(root: nat, heap: Heap<K>, c: Context<K>, hole: nat) {
    match c
    case Top => root == hole
    case InLeft(a, k, r, up) =>
      && a != 0 && a in heap && heap[a] == Cell(k, hole, Ptr(r))
      && a !in Addrs(r) && a !in ContextAddrs(up) && Addrs(r) !! ContextAddrs(up)
      && Shape(heap, r) && ContextShape(root, heap, up, a)
    case InRight(a, k, l, up) =>
      && a != 0 && a in heap && heap[a] == Cell(k, Ptr(l), hole)
      && a !in Addrs(l) && a !in ContextAddrs(up) && Addrs(l) !! ContextAddrs(up)
      && Shape(heap, l) && ContextShape(root, heap, up, a)
  }

  /** The heap holds exactly the cells of the context and of the subtree in its hole. */
  ghost predicate Linked<K>(root: nat, heap: Heap<K>, c: Context<K>, t: Tree<K>) {
    && ContextShape(root, heap, c, Ptr(t))
    && Shape(heap, t)
    && ContextAddrs(c) !! Addrs(t)
    && heap.Keys == ContextAddrs(c) + Addrs(t)
  }

  /** Moving the hole down or up one node is a matter of bookkeeping. */
  lemma {:induction false} LinkedFrame<K>(root: nat, heap: Heap<K>, c: Context<K>, t: Tree<K>)
    requires !c.Top?
    ensures Linked(root, heap, c, t) <==> Linked(root, heap, c.up, Frame(c, t))
  {
    assert ContextAddrs(c) + Addrs(t) == ContextAddrs(c.up) + Addrs(Frame(c, t));
  }

  lemma {:induction false} LinkedFill<K>(root: nat, heap: Heap<K>, c: Context<K>, t: Tree<K>)
    ensures Linked(root, heap, c, t) <==> Linked(root, heap, Top, Fill(c, t))
    decreases c
  {
    if !c.Top? {
      LinkedFrame(root, heap, c, t);
      LinkedFill(root, heap, c.up, Frame(c, t));
    }
  }

  ghost predicate AgreeOn<K>(heap: Heap<K>, heap': Heap<K>, addrs: set<nat>) {
    forall a :: a in addrs && a in heap ==> a in heap' && heap'[a] == heap[a]
  }

  lemma {:induction false} ShapeAgrees<K>(heap: Heap<K>, heap': Heap<K>, t: Tree<K>)
    requires Shape(heap, t) && AgreeOn(heap, heap', Addrs(t))
    ensures Shape(heap', t)
  {
    if t.Branch? {
      ShapeAgrees(heap, heap', t.left);
      ShapeAgrees(heap, heap', t.right);
    }
  }

  lemma {:induction false} ContextAgrees<K>(root: nat, heap: Heap<K>, heap': Heap<K>, c: Context<K>, hole: nat)
    requires ContextShape(root, heap, c, hole) && AgreeOn(heap, heap', ContextAddrs(c))
    ensures ContextShape(root, heap', c, hole)
    decreases c
  {
    if !c.Top? {
      ShapeAgrees(heap, heap', if c.InLeft? then c.right else c.left);
      ContextAgrees(root, heap, heap', c.up, c.addr);
    }
  }

  function LoadSlot<K>(root: nat, heap: Heap<K>, slot: Slot): nat
    requires slot.RootSlot? || slot.node in heap
  {
    match slot
    case RootSlot => root
    case LeftOf(n) => heap[n].left
    case RightOf(n) => heap[n].right
  }

  function StoreRoot(root: nat, slot: Slot, p: nat): nat { if slot.RootSlot? then p else root }

  function StoreHeap<K>(heap: Heap<K>, slot: Slot, p: nat): Heap<K>
    requires slot.RootSlot? || slot.node in heap
  {
    match slot
    case RootSlot => heap
    case LeftOf(n) => heap[n := heap[n].(left := p)]
    case RightOf(n) => heap[n := heap[n].(right := p)]
  }

  /** Writing through the slot of the hole changes what hangs in the hole and nothing else. */
  lemma {:induction false} StoreRelinks<K>(root: nat, heap: Heap<K>, c: Context<K>, hole: nat, p: nat)
    requires ContextShape(root, heap, c, hole)
    ensures SlotOf(c).RootSlot? || SlotOf(c).node in heap
    ensures ContextShape(StoreRoot(root, SlotOf(c), p), StoreHeap(heap, SlotOf(c), p), c, p)
    ensures AgreeOn(heap, StoreHeap(heap, SlotOf(c), p), heap.Keys - ContextAddrs(c))
    ensures StoreHeap(heap, SlotOf(c), p).Keys == heap.Keys
  {
    if !c.Top? {
      var heap' := StoreHeap(heap, SlotOf(c), p);
      ShapeAgrees(heap, heap', if c.InLeft? then c.right else c.left);
      ContextAgrees(root, heap, heap', c.up, c.addr);
    }
  }

  /** tsearch's last line: hang a new node in an empty hole. */
  lemma {:induction false} InsertLinks<K>(root: nat, heap: Heap<K>, c: Context<K>, k: K, a: nat)
    requires Linked(root, heap, c, Leaf) && a != 0 && a !in heap
    ensures SlotOf(c).RootSlot? || SlotOf(c).node in heap[a := Cell(k, 0, 0)]
    ensures Linked(StoreRoot(root, SlotOf(c), a), StoreHeap(heap[a := Cell(k, 0, 0)], SlotOf(c), a), c,
                   Branch(a, k, Leaf, Leaf))
  {
    var heap1 := heap[a := Cell(k, 0, 0)];
    ContextAgrees(root, heap, heap1, c, 0);
    StoreRelinks(root, heap1, c, 0, a);
  }

  function OnlyChild<K>(t: Tree<K>): Tree<K>
    requires t.Branch?
  {
    if t.left.Branch? then t.left else t.right
  }

  /** Put a node's only child in its place and free the node. */
  lemma {:induction false} UnlinkNode<K>(root: nat, heap: Heap<K>, c: Context<K>, t: Tree<K>)
    requires Linked(root, heap, c, t) && t.Branch? && (t.left.Leaf? || t.right.Leaf?)
    ensures SlotOf(c).RootSlot? || SlotOf(c).node in heap
    ensures Linked(StoreRoot(root, SlotOf(c), Ptr(OnlyChild(t))),
                   StoreHeap(heap, SlotOf(c), Ptr(OnlyChild(t))) - {t.addr}, c, OnlyChild(t))
  {
    var child := OnlyChild(t);
    StoreRelinks(root, heap, c, t.addr, Ptr(child));
    var heap1 := StoreHeap(heap, SlotOf(c), Ptr(child));
    var heap2 := heap1 - {t.addr};
    ContextAgrees(StoreRoot(root, SlotOf(c), Ptr(child)), heap1, heap2, c, Ptr(child));
    ShapeAgrees(heap, heap2, child);
  }

  lemma {:induction false} RekeyNode<K>(root: nat, heap: Heap<K>, c: Context<K>, t: Tree<K>, k: K)
    requires Linked(root, heap, c, t) && t.Branch?
    ensures Linked(root, heap[t.addr := heap[t.addr].(key := k)], c, t.(key := k))
  {
    var heap1 := heap[t.addr := heap[t.addr].(key := k)];
    ContextAgrees(root, heap, heap1, c, t.addr);
    ShapeAgrees(heap, heap1, t.left);
    ShapeAgrees(heap, heap1, t.right);
  }

  // ---------------------------------------------------------------- following the pointers

  /** Every turn from the root to the hole is the one the search for k takes. */
  ghost predicate OnPath<K>(cmp: (K, K) -> int, c: Context<K>, k: K) {
    c.Top? || (OnPath(cmp, c.up, k) && if c.InLeft? then cmp(k, c.key) < 0 else cmp(k, c.key) > 0)
  }

  lemma {:induction false} SearchThrough<K>(cmp: (K, K) -> int, c: Context<K>, t: Tree<K>, k: K, sub: Tree<K>)
    requires OnPath(cmp, c, k)
    ensures Lookup(cmp, Fill(c, t), k) == Lookup(cmp, t, k)
    ensures Graft(cmp, Fill(c, t), k, sub) == Fill(c, Graft(cmp, t, k, sub))
    decreases c
  {
    if !c.Top? {
      SearchThrough(cmp, c.up, Frame(c, t), k, sub);
    }
  }

  /** A context that only turns left, as the walk to the successor does. */
  predicate LeftSpine<K>(d: Context<K>) {
    d.Top? || (d.InLeft? && LeftSpine(d.up))
  }

  lemma {:induction false} MinThrough<K>(d: Context<K>, s: Tree<K>)
    requires LeftSpine(d) && s.Branch?
    ensures Fill(d, s).Branch?
    ensures MinKey(Fill(d, s)) == MinKey(s)
    ensures DeleteMin(Fill(d, s)) == Fill(d, DeleteMin(s))
    decreases d
  {
    if !d.Top? {
      MinThrough(d.up, Frame(d, s));
    }
  }

  function Append<K>(d: Context<K>, base: Context<K>): Context<K> {
    match d
    case Top => base
    case InLeft(a, k, r, up) => InLeft(a, k, r, Append(up, base))
    case InRight(a, k, l, up) => InRight(a, k, l, Append(up, base))
  }

  lemma {:induction false} FillAppend<K>(d: Context<K>, base: Context<K>, s: Tree<K>)
    ensures Fill(Append(d, base), s) == Fill(base, Fill(d, s))
    decreases d
  {
    if !d.Top? {
      FillAppend(d.up, base, Frame(d, s));
    }
  }

  /** Rekeying the node above the right spine leaves the hole where it was. */
  lemma {:induction false} RekeyAbove<K>(root: nat, heap: Heap<K>, c: Context<K>, t: Tree<K>, d: Context<K>, s: Tree<K>, k: K)
    requires t.Branch? && Fill(d, s) == t.right
    requires Linked(root, heap, Append(d, InRight(t.addr, t.key, t.left, c)), s)
    ensures t.addr in heap
    ensures Linked(root, heap[t.addr := heap[t.addr].(key := k)], Append(d, InRight(t.addr, k, t.left, c)), s)
  {
    var base, base' := InRight(t.addr, t.key, t.left, c), InRight(t.addr, k, t.left, c);
    FillAppend(d, base, s);
    LinkedFill(root, heap, Append(d, base), s);
    LinkedFill(root, heap, c, t);
    RekeyNode(root, heap, c, t, k);
    var heap1 := heap[t.addr := heap[t.addr].(key := k)];
    FillAppend(d, base', s);
    LinkedFill(root, heap1, Append(d, base'), s);
    LinkedFill(root, heap1, c, t.(key := k));
  }

  /** Deleting where the search stopped is deleting from the whole tree. */
  lemma {:induction false} DeleteAtHole<K(!new)>(cmp: (K, K) -> int, t: Tree<K>, k: K, c: Context<K>, sub: Tree<K>)
    requires TotalOrder(cmp) && Bst(cmp, t)
    requires Fill(c, sub) == t && OnPath(cmp, c, k) && sub == Lookup(cmp, t, k)
    ensures sub.Branch? <==> k in Keys(t)
    ensures sub.Leaf? ==> Delete(cmp, t, k) == t
    ensures sub.Branch? ==> Delete(cmp, t, k) == Fill(c, DeleteRoot(sub))
    ensures Bst(cmp, Delete(cmp, t, k)) && Keys(Delete(cmp, t, k)) == Keys(t) - {k}
  {
    LookupIsMembership(cmp, t, k);
    DeleteRemovesKey(cmp, t, k);
    if sub.Branch? {
      SearchThrough(cmp, c, sub, k, DeleteRoot(sub));
    }
  }

  class SearchTree<K(!new)> {
    const cmp: (K, K) -> int
    var root: nat
    var heap: Heap<K>
    ghost var tree: Tree<K>

    ghost predicate Valid()
      reads this
    {
      TotalOrder(cmp) && Bst(cmp, tree) && Linked(root, heap, Top, tree)
    }

    constructor (cmp: (K, K) -> int)
      requires TotalOrder(cmp)
      ensures Valid() && tree == Leaf && this.cmp == cmp
    {
      this.cmp := cmp;
      root, heap, tree := 0, map[], Leaf;
    }

    /** The common descent: p walks to the slot where the search for key stops. */
    method Descend(key: K) returns (p: Slot, ghost c: Context<K>, ghost sub: Tree<K>)
      requires Valid()
      ensures p == SlotOf(c) && Fill(c, sub) == tree && OnPath(cmp, c, key)
      ensures Linked(root, heap, c, sub)
      ensures p.RootSlot? || p.node in heap
      ensures LoadSlot(root, heap, p) == Ptr(sub)
      ensures sub == Lookup(cmp, tree, key)
    {
      p, c, sub := RootSlot, Top, tree;
      while LoadSlot(root, heap, p) != 0
        invariant p == SlotOf(c) && Fill(c, sub) == tree && OnPath(cmp, c, key)
        invariant Linked(root, heap, c, sub)
        invariant p.RootSlot? || p.node in heap
        invariant LoadSlot(root, heap, p) == Ptr(sub)
        decreases sub
      {
        var node := LoadSlot(root, heap, p);
        var order := cmp(key, heap[node].key);
        if order == 0 {
          break;
        }
        if order < 0 {
          p := LeftOf(node);
          c, sub := InLeft(sub.addr, sub.key, sub.right, c), sub.left;
        } else {
          p := RightOf(node);
          c, sub := InRight(sub.addr, sub.key, sub.left, c), sub.right;
        }
        LinkedFrame(root, heap, c, sub);
      }
      SearchThrough(cmp, c, sub, key, Leaf);
    }

    method Tfind(key: K) returns (p: nat)
      requires Valid()
      ensures p != 0 <==> key in Keys(tree)
      ensures p != 0 ==> p in heap && heap[p].key == key
    {
      if root == 0 {
        return 0;                                  // EINVAL
      }
      var slot, c, sub := Descend(key);
      p := LoadSlot(root, heap, slot);
      LookupIsMembership(cmp, tree, key);
    }

    /** `malloced` is what malloc returns: an unused address, or 0 when it fails. */
    method Tsearch(key: K, malloced: nat) returns (p: nat)
      requires Valid()
      requires malloced == 0 || malloced !in heap
      modifies this
      ensures Valid()
      ensures tree == if malloced == 0 then old(tree) else Insert(cmp, old(tree), key, malloced)
      ensures Keys(tree) == if malloced == 0 then old(Keys(tree)) else old(Keys(tree)) + {key}
      ensures p != 0 <==> key in Keys(tree)
      ensures p != 0 ==> p in heap && heap[p].key == key
      ensures key in old(Keys(tree)) ==> tree == old(tree) && heap == old(heap)
    {
      var slot, c, sub := Descend(key);
      LookupIsMembership(cmp, tree, key);
      p := LoadSlot(root, heap, slot);
      if p == 0 {
        p := malloced;
        if malloced != 0 {
          InsertLinks(root, heap, c, key, malloced);
          heap := heap[malloced := Cell(key, 0, 0)];
          root, heap := StoreRoot(root, slot, malloced), StoreHeap(heap, slot, malloced);
          InsertAddsKey(cmp, tree, key, malloced);
          SearchThrough(cmp, c, sub, key, Branch(malloced, key, Leaf, Leaf));
          tree := Insert(cmp, tree, key, malloced);
          LinkedFill(root, heap, c, Branch(malloced, key, Leaf, Leaf));
          LookupIsMembership(cmp, tree, key);
        }
      }
    }

    /** The two-child case: copy the successor's key into the node, splice the successor out, free it. */
    method SpliceSuccessor(node: nat, ghost c: Context<K>, ghost t: Tree<K>)
      requires Linked(root, heap, c, t) && t.Branch? && t.left.Branch? && t.right.Branch?
      requires node == t.addr
      modifies this`root, this`heap
      ensures Linked(root, heap, c, DeleteRoot(t))
    {
      ghost var d: Context<K>, s := Top, t.right;
      ghost var base := InRight(t.addr, t.key, t.left, c);
      LinkedFrame(root, heap, base, s);
      var succP := RightOf(node);
      while heap[LoadSlot(root, heap, succP)].left != 0
        invariant LeftSpine(d) && s.Branch? && Fill(d, s) == t.right
        invariant Linked(root, heap, Append(d, base), s)
        invariant succP == SlotOf(Append(d, base)) && succP.node in heap
        invariant LoadSlot(root, heap, succP) == s.addr && s.addr in heap
        decreases s
      {
        succP := LeftOf(LoadSlot(root, heap, succP));
        d, s := InLeft(s.addr, s.key, s.right, d), s.left;
        LinkedFrame(root, heap, Append(d, base), s);
      }
      ChildIsNull(heap, s);
      var succ := LoadSlot(root, heap, succP);
      MinThrough(d, s);
      RekeyAbove(root, heap, c, t, d, s, s.key);
      heap := heap[node := heap[node].(key := heap[succ].key)];
      ghost var above := InRight(t.addr, s.key, t.left, c);
      UnlinkNode(root, heap, Append(d, above), s);
      var rest := heap[succ].right;
      root, heap := StoreRoot(root, succP, rest), StoreHeap(heap, succP, rest);
      heap := heap - {succ};
      FillAppend(d, above, s.right);
      LinkedFill(root, heap, Append(d, above), s.right);
      LinkedFill(root, heap, c, DeleteRoot(t));
    }

    /** The other case: put the only child, if any, in the node's place and free the node. */
    method UnlinkAt(p: Slot, ghost c: Context<K>, ghost t: Tree<K>)
      requires Linked(root, heap, c, t) && t.Branch? && (t.left.Leaf? || t.right.Leaf?)
      requires p == SlotOf(c) && (p.RootSlot? || p.node in heap) && LoadSlot(root, heap, p) == t.addr
      modifies this`root, this`heap
      ensures Linked(root, heap, c, DeleteRoot(t))
    {
      var node := LoadSlot(root, heap, p);
      UnlinkNode(root, heap, c, t);
      var child := if heap[node].left != 0 then heap[node].left else heap[node].right;
      root, heap := StoreRoot(root, p, child), StoreHeap(heap, p, child);
      heap := heap - {node};
    }

    /** Remove the node that p points at. */
    method RemoveNode(p: Slot, ghost c: Context<K>, ghost t: Tree<K>)
      requires Linked(root, heap, c, t) && t.Branch?
      requires p == SlotOf(c) && (p.RootSlot? || p.node in heap) && LoadSlot(root, heap, p) == t.addr
      modifies this`root, this`heap
      ensures Linked(root, heap, c, DeleteRoot(t))
    {
      var node := LoadSlot(root, heap, p);
      ChildIsNull(heap, t);
      if heap[node].left != 0 && heap[node].right != 0 {
        SpliceSuccessor(node, c, t);
      } else {
        UnlinkAt(p, c, t);
      }
    }

    method Tdelete(key: K) returns (p: nat)
      requires Valid()
      modifies this
      ensures Valid()
      ensures tree == Delete(cmp, old(tree), key)
      ensures Keys(tree) == old(Keys(tree)) - {key}
      ensures p == if key in old(Keys(tree)) then root else 0
    {
      if root == 0 {
        return 0;                                  // EINVAL
      }
      var slot, c, sub := Descend(key);
      DeleteAtHole(cmp, tree, key, c, sub);
      if LoadSlot(root, heap, slot) == 0 {
        return 0;
      }
      RemoveNode(slot, c, sub);
      tree := Delete(cmp, tree, key);
      LinkedFill(root, heap, c, DeleteRoot(sub));
      p := root;
    }
  }

  // ---------------------------------------------------------------- whole runs

  /** A call: tsearch whose malloc delivered `malloced`, or tdelete. */
  datatype Op<K> = Search(key: K, malloced: nat) | Remove(key: K)

  function ApplyAll<K>(cmp: (K, K) -> int, ops: seq<Op<K>>): Tree<K> {
    if ops == [] then Leaf
    else
      var t, op := ApplyAll(cmp, ops[..|ops| - 1]), ops[|ops| - 1];
      match op
      case Search(k, a) => if a == 0 then t else Insert(cmp, t, k, a)
      case Remove(k) => Delete(cmp, t, k)
  }

  /** The finite set the calls denote. */
  ghost function AbstractSet<K>(ops: seq<Op<K>>): set<K> {
    if ops == [] then {}
    else
      var m, op := AbstractSet(ops[..|ops| - 1]), ops[|ops| - 1];
      match op
      case Search(k, a) => if a == 0 then m else m + {k}
      case Remove(k) => m - {k}
  }

  /** After any calls, the in-order keys are the abstract set in increasing order and tfind is membership. */
  lemma {:induction false} TreeIsSortedSet<K(!new)>(cmp: (K, K) -> int, ops: seq<Op<K>>, k: K)
    requires TotalOrder(cmp)
    ensures Bst(cmp, ApplyAll(cmp, ops)) && Keys(ApplyAll(cmp, ops)) == AbstractSet(ops)
    ensures Increasing(cmp, InOrder(ApplyAll(cmp, ops)))
    ensures forall x :: x in InOrder(ApplyAll(cmp, ops)) <==> x in AbstractSet(ops)
    ensures Lookup(cmp, ApplyAll(cmp, ops), k).Branch? <==> k in AbstractSet(ops)
  {
    if ops != [] {
      var op := ops[|ops| - 1];
      TreeIsSortedSet(cmp, ops[..|ops| - 1], k);
      var t := ApplyAll(cmp, ops[..|ops| - 1]);
      match op {
        case Search(x, a) => InsertAddsKey(cmp, t, x, a);
        case Remove(x) => DeleteRemovesKey(cmp, t, x);
      }
    }
    InOrderIsSorted(cmp, ApplyAll(cmp, ops));
    LookupIsMembership(cmp, ApplyAll(cmp, ops), k);
  }
}
