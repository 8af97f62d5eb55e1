/** The whole sequence of visits that twalk makes: how deep each is said to be, and what comes before what. */
module TreeWalk {

  import opened SearchTree

  /** The number of nodes on the way from the root to k. */
  function Level<K>(cmp: (K, K) -> int, t: Tree<K>, k: K): nat {
    if t.Leaf? || cmp(k, t.key) == 0 then 0
    else 1 + Level(cmp, if cmp(k, t.key) < 0 then t.left else t.right, k)
  }

  /** x is on the way from the root to y, and not y. */
  predicate Above<K>(cmp: (K, K) -> int, t: Tree<K>, x: K, y: K) {
    && t.Branch? && cmp(y, t.key) != 0
    && (cmp(x, t.key) == 0 || Above(cmp, if cmp(y, t.key) < 0 then t.left else t.right, x, y))
  }

  function Stage(which: Which): nat {
    match which case Preorder => 0 case Childless => 1 case Postorder => 2 case Endorder => 3
  }

  /**
   * v comes before w: of one node's visits in the order of their kinds; of a node and one
   * below it the preorder visit first and the postorder and endorder visits last; of two
   * nodes neither of which is below the other, all of the smaller key's first.
   */
  ghost predicate ComesBefore<K(!new)>(cmp: (K, K) -> int, t: Tree<K>, v: Visit<K>, w: Visit<K>) {
    if v.key == w.key then Stage(v.which) < Stage(w.which)
    else if Above(cmp, t, v.key, w.key) then v.which.Preorder?
    else if Above(cmp, t, w.key, v.key) then w.which.Postorder? || w.which.Endorder?
    else cmp(v.key, w.key) < 0
  }

  ghost predicate InOrderOf<K(!new)>(cmp: (K, K) -> int, t: Tree<K>, vs: seq<Visit<K>>) {
    forall i, j :: 0 <= i < j < |vs| ==> ComesBefore(cmp, t, vs[i], vs[j])
  }

  ghost predicate AllBefore<K(!new)>(cmp: (K, K) -> int, t: Tree<K>, vs: seq<Visit<K>>, ws: seq<Visit<K>>) {
    forall i, j :: 0 <= i < |vs| && 0 <= j < |ws| ==> ComesBefore(cmp, t, vs[i], ws[j])
  }

  lemma Joined<K(!new)>(cmp: (K, K) -> int, t: Tree<K>, vs: seq<Visit<K>>, ws: seq<Visit<K>>)
    requires InOrderOf(cmp, t, vs) && InOrderOf(cmp, t, ws) && AllBefore(cmp, t, vs, ws)
    ensures InOrderOf(cmp, t, vs + ws)
  {
    var all := vs + ws;
    forall i, j | 0 <= i < j < |all|
      ensures ComesBefore(cmp, t, all[i], all[j])
    {
      assert all[i] == if i < |vs| then vs[i] else ws[i - |vs|];
      assert all[j] == if j < |vs| then vs[j] else ws[j - |vs|];
    }
  }

  lemma JoinedBefore<K(!new)>(cmp: (K, K) -> int, t: Tree<K>, us: seq<Visit<K>>, vs: seq<Visit<K>>, ws: seq<Visit<K>>)
    requires AllBefore(cmp, t, us, ws) && AllBefore(cmp, t, vs, ws)
    ensures AllBefore(cmp, t, us + vs, ws)
  {
    var all := us + vs;
    forall i, j | 0 <= i < |all| && 0 <= j < |ws|
      ensures ComesBefore(cmp, t, all[i], ws[j])
    {
      assert all[i] == if i < |us| then us[i] else vs[i - |us|];
    }
  }

  /** The visits are of keys in the tree, each at its key's depth. */
  ghost predicate Depths<K(!new)>(cmp: (K, K) -> int, t: Tree<K>, d: nat, vs: seq<Visit<K>>) {
    forall i :: 0 <= i < |vs| ==> vs[i].key in Keys(t) && vs[i].depth == d + Level(cmp, t, vs[i].key)
  }

  /** The walk's own visits of a node, before and behind those of its subtrees. */
  function Opening<K>(t: Tree<K>, d: nat): seq<Visit<K>>
    requires t.Branch?
  {
    [Visit(t.key, Preorder, d)] + if Lone(t) then [Visit(t.key, Childless, d)] else []
  }

  function Closing<K>(t: Tree<K>, d: nat): seq<Visit<K>>
    requires t.Branch?
  {
    [Visit(t.key, Postorder, d), Visit(t.key, Endorder, d)]
  }

  lemma WalkParts<K>(t: Tree<K>, d: nat)
    requires t.Branch?
    ensures Walk(t, d) == Opening(t, d) + Walk(t.left, d + 1) + Walk(t.right, d + 1) + Closing(t, d)
  {
  }

  /** twalk tells the action how many nodes are above the visited one. */
  lemma {:induction false} WalkDepths<K(!new)>(cmp: (K, K) -> int, t: Tree<K>, d: nat)
    requires TotalOrder(cmp) && Bst(cmp, t)
    ensures Depths(cmp, t, d, Walk(t, d))
  {
    if t.Branch? {
      WalkDepths(cmp, t.left, d + 1);
      WalkDepths(cmp, t.right, d + 1);
      WalkParts(t, d);
      LiftDepths(cmp, t, d, Walk(t.left, d + 1), true);
      LiftDepths(cmp, t, d, Walk(t.right, d + 1), false);
    }
  }

  lemma {:induction false} LiftDepths<K(!new)>(cmp: (K, K) -> int, t: Tree<K>, d: nat, vs: seq<Visit<K>>, left: bool)
    requires TotalOrder(cmp) && Bst(cmp, t) && t.Branch?
    requires Depths(cmp, if left then t.left else t.right, d + 1, vs)
    ensures Depths(cmp, t, d, vs)
  {
    forall i | 0 <= i < |vs|
      ensures vs[i].key in Keys(t) && vs[i].depth == d + Level(cmp, t, vs[i].key)
    {
      assert left ==> cmp(vs[i].key, t.key) < 0;
      assert !left ==> cmp(t.key, vs[i].key) < 0;
    }
  }

  lemma {:induction false} LiftOrder<K(!new)>(cmp: (K, K) -> int, t: Tree<K>, d: nat, vs: seq<Visit<K>>, left: bool)
    requires TotalOrder(cmp) && Bst(cmp, t) && t.Branch?
    requires var sub := if left then t.left else t.right; Depths(cmp, sub, d + 1, vs) && InOrderOf(cmp, sub, vs)
    ensures InOrderOf(cmp, t, vs)
  {
    var sub := if left then t.left else t.right;
    forall i, j | 0 <= i < j < |vs|
      ensures ComesBefore(cmp, t, vs[i], vs[j])
    {
      assert vs[i].key in Keys(sub) && vs[j].key in Keys(sub) && ComesBefore(cmp, sub, vs[i], vs[j]);
      SameAbove(cmp, t, sub, vs[i].key, vs[j].key);
      SameAbove(cmp, t, sub, vs[j].key, vs[i].key);
    }
  }

  lemma {:induction false} SameAbove<K(!new)>(cmp: (K, K) -> int, t: Tree<K>, sub: Tree<K>, x: K, y: K)
    requires TotalOrder(cmp) && Bst(cmp, t) && t.Branch? && (sub == t.left || sub == t.right)
    requires x in Keys(sub) && y in Keys(sub)
    ensures Above(cmp, t, x, y) <==> Above(cmp, sub, x, y)
  {
    if sub == t.left && x in Keys(t.left) && y in Keys(t.left) {
      assert cmp(x, t.key) < 0 && cmp(y, t.key) < 0;
    } else {
      assert cmp(t.key, x) < 0 && cmp(t.key, y) < 0;
    }
  }

  ghost predicate BelowRoot<K>(t: Tree<K>, vs: seq<Visit<K>>)
    requires t.Branch?
  {
    forall i :: 0 <= i < |vs| ==> vs[i].key in Keys(t.left) || vs[i].key in Keys(t.right)
  }

  lemma {:induction false} NotTheRoot<K(!new)>(cmp: (K, K) -> int, t: Tree<K>, k: K)
    requires TotalOrder(cmp) && Bst(cmp, t) && t.Branch? && (k in Keys(t.left) || k in Keys(t.right))
    ensures cmp(k, t.key) != 0 && k != t.key && cmp(t.key, t.key) == 0 && !Lone(t)
    ensures Above(cmp, t, t.key, k) && !Above(cmp, t, k, t.key)
  {
    if k in Keys(t.left) {
      assert cmp(k, t.key) < 0;
    } else {
      assert cmp(t.key, k) < 0;
    }
  }

  /** The root's first visits come before everything below it, its last behind. */
  lemma {:induction false} RootBefore<K(!new)>(cmp: (K, K) -> int, t: Tree<K>, d: nat, vs: seq<Visit<K>>)
    requires TotalOrder(cmp) && Bst(cmp, t) && t.Branch? && BelowRoot(t, vs)
    ensures AllBefore(cmp, t, Opening(t, d), vs) && AllBefore(cmp, t, vs, Closing(t, d))
  {
    forall i | 0 <= i < |vs|
      ensures forall v :: v in Opening(t, d) ==> ComesBefore(cmp, t, v, vs[i])
      ensures forall v :: v in Closing(t, d) ==> ComesBefore(cmp, t, vs[i], v)
    {
      NotTheRoot(cmp, t, vs[i].key);
    }
  }

  lemma {:induction false} RootVisits<K(!new)>(cmp: (K, K) -> int, t: Tree<K>, d: nat)
    requires t.Branch?
    ensures AllBefore(cmp, t, Opening(t, d), Closing(t, d))
    ensures InOrderOf(cmp, t, Opening(t, d)) && InOrderOf(cmp, t, Closing(t, d))
  {
  }

  /** Everything on the left comes before everything on the right. */
  lemma {:induction false} LeftBefore<K(!new)>(cmp: (K, K) -> int, t: Tree<K>, d: nat, vs: seq<Visit<K>>, ws: seq<Visit<K>>)
    requires TotalOrder(cmp) && Bst(cmp, t) && t.Branch?
    requires Depths(cmp, t.left, d, vs) && Depths(cmp, t.right, d, ws)
    ensures AllBefore(cmp, t, vs, ws)
  {
    forall i, j | 0 <= i < |vs| && 0 <= j < |ws|
      ensures ComesBefore(cmp, t, vs[i], ws[j])
    {
      var x, y := vs[i].key, ws[j].key;
      assert cmp(x, t.key) < 0 && cmp(t.key, y) < 0;
      NotAbove(cmp, t.right, x, y);
      NotAbove(cmp, t.left, y, x);
    }
  }

  lemma {:induction false} NotAbove<K(!new)>(cmp: (K, K) -> int, t: Tree<K>, x: K, y: K)
    requires TotalOrder(cmp) && x !in Keys(t)
    ensures !Above(cmp, t, x, y)
  {
    if t.Branch? {
      NotAbove(cmp, t.left, x, y);
      NotAbove(cmp, t.right, x, y);
    }
  }

  /** The visits of the whole walk come in the order that says what comes before what. */
  lemma {:induction false} WalkOrder<K(!new)>(cmp: (K, K) -> int, t: Tree<K>, d: nat)
    requires TotalOrder(cmp) && Bst(cmp, t)
    ensures InOrderOf(cmp, t, Walk(t, d))
  {
    if t.Branch? {
      var l, r := Walk(t.left, d + 1), Walk(t.right, d + 1);
      WalkOrder(cmp, t.left, d + 1);
      WalkOrder(cmp, t.right, d + 1);
      WalkDepths(cmp, t.left, d + 1);
      WalkDepths(cmp, t.right, d + 1);
      LiftOrder(cmp, t, d, l, true);
      LiftOrder(cmp, t, d, r, false);
      RootBefore(cmp, t, d, l);
      RootBefore(cmp, t, d, r);
      RootVisits(cmp, t, d);
      LeftBefore(cmp, t, d + 1, l, r);
      WalkJoined(cmp, t, d, l, r);
      WalkParts(t, d);
    }
  }

  lemma {:induction false} WalkJoined<K(!new)>(cmp: (K, K) -> int, t: Tree<K>, d: nat, l: seq<Visit<K>>, r: seq<Visit<K>>)
    requires t.Branch? && InOrderOf(cmp, t, Opening(t, d)) && InOrderOf(cmp, t, Closing(t, d))
    requires InOrderOf(cmp, t, l) && InOrderOf(cmp, t, r) && AllBefore(cmp, t, l, r)
    requires AllBefore(cmp, t, Opening(t, d), l) && AllBefore(cmp, t, Opening(t, d), r)
    requires AllBefore(cmp, t, Opening(t, d), Closing(t, d))
    requires AllBefore(cmp, t, l, Closing(t, d)) && AllBefore(cmp, t, r, Closing(t, d))
    ensures InOrderOf(cmp, t, Opening(t, d) + l + r + Closing(t, d))
  {
    var a, z := Opening(t, d), Closing(t, d);
    Joined(cmp, t, a, l);
    JoinedBefore(cmp, t, a, l, r);
    Joined(cmp, t, a + l, r);
    JoinedBefore(cmp, t, a, l, z);
    JoinedBefore(cmp, t, a + l, r, z);
    Joined(cmp, t, a + l + r, z);
  }
}
