/**
 * hcreate, hsearch and hdestroy: an open-addressing hash table with linear probing over a
 * fixed array, for an arbitrary hash function.
 */
module HashTable {

  datatype Slot<D> = Empty | Entry(key: string, data: D)

  datatype Action = Find | Enter

  datatype Errno = EINVAL | ESRCH | ENOSPC

  /** hsearch returns the address of a slot, here its index, or NULL with errno set. */
  datatype Outcome = Found(idx: nat) | Failed(errno: Errno)

  /** item.key may be NULL. */
  datatype Key = Null | Str(s: string)

  // ---------------------------------------------------------------- probe sequences

  /** The d-th slot probed from start. */
  function Nth(start: nat, d: nat, cap: nat): (i: nat)
    requires start < cap && d < cap
    ensures i < cap
  {
    if start + d < cap then start + d else start + d - cap
  }

  /** How many probes after start the slot i comes. */
  function Dist(start: nat, i: nat, cap: nat): (d: nat)
    requires start < cap && i < cap
    ensures d < cap && Nth(start, d, cap) == i
  {
    if start <= i then i - start else i + cap - start
  }

  predicate Stops<D>(slot: Slot<D>, key: string) {
    slot.Empty? || slot.key == key
  }

  /** The first probe from the d-th on that is empty or holds key; the capacity if there is none. */
  function Probe<D>(s: seq<Slot<D>>, key: string, start: nat, d: nat): (r: nat)
    requires start < |s| && d <= |s|
    ensures d <= r <= |s|
    ensures r < |s| ==> Stops(s[Nth(start, r, |s|)], key)
    ensures forall e: nat :: d <= e < r ==> !Stops(s[Nth(start, e, |s|)], key)
    decreases |s| - d
  {
    if d == |s| || Stops(s[Nth(start, d, |s|)], key) then d else Probe(s, key, start, d + 1)
  }

  function Home(hash: string -> nat, key: string, cap: nat): (i: nat)
    requires cap > 0
    ensures i < cap
  {
    hash(key) % cap
  }

  // ---------------------------------------------------------------- the table as a map

  ghost predicate Holds<D>(s: seq<Slot<D>>, key: string) {
    exists i :: 0 <= i < |s| && s[i].Entry? && s[i].key == key
  }

  ghost predicate DistinctKeys<D>(s: seq<Slot<D>>) {
    forall i, j :: 0 <= i < |s| && 0 <= j < |s| && s[i].Entry? && s[j].Entry? && s[i].key == s[j].key ==> i == j
  }

  /** Every slot probed before an entry, from the home of its key, is occupied. */
  ghost predicate NoGaps<D>(s: seq<Slot<D>>, hash: string -> nat) {
    forall i: nat, d: nat :: i < |s| && s[i].Entry? && d < Dist(Home(hash, s[i].key, |s|), i, |s|)
      ==> s[Nth(Home(hash, s[i].key, |s|), d, |s|)].Entry?
  }

  ghost predicate TableInv<D>(s: seq<Slot<D>>, hash: string -> nat) {
    |s| > 0 && DistinctKeys(s) && NoGaps(s, hash)
  }

  ghost function Contents<D>(s: seq<Slot<D>>): map<string, D> {
    if s == [] then map[]
    else
      var m := Contents(s[..|s| - 1]);
      var last := s[|s| - 1];
      if last.Empty? then m else m[last.key := last.data]
  }

  predicate Full<D>(s: seq<Slot<D>>) {
    forall i :: 0 <= i < |s| ==> s[i].Entry?
  }

  lemma {:induction false} ContentsOfSlots<D>(s: seq<Slot<D>>)
    requires DistinctKeys(s)
    ensures forall k :: k in Contents(s) <==> Holds(s, k)
    ensures forall i :: 0 <= i < |s| && s[i].Entry? ==> s[i].key in Contents(s) && Contents(s)[s[i].key] == s[i].data
  {
    if s != [] {
      var n := |s| - 1;
      var p := s[..n];
      assert DistinctKeys(p);
      ContentsOfSlots(p);
      forall k
        ensures k in Contents(s) <==> Holds(s, k)
      {
        if Holds(p, k) {
          var i :| 0 <= i < |p| && p[i].Entry? && p[i].key == k;
          assert s[i] == p[i];
        }
        if Holds(s, k) {
          var i :| 0 <= i < |s| && s[i].Entry? && s[i].key == k;
          assert i < n ==> p[i] == s[i];
        }
      }
      forall i | 0 <= i < |s| && s[i].Entry?
        ensures s[i].key in Contents(s) && Contents(s)[s[i].key] == s[i].data
      {
        assert i < n ==> p[i] == s[i];
      }
    }
  }

  lemma {:induction false} LastKeyIsNew<D>(s: seq<Slot<D>>)
    requires DistinctKeys(s) && s != [] && s[|s| - 1].Entry?
    ensures s[|s| - 1].key !in Contents(s[..|s| - 1])
  {
    var n := |s| - 1;
    var p := s[..n];
    assert DistinctKeys(p);
    ContentsOfSlots(p);
    assert forall i :: 0 <= i < n ==> p[i] == s[i];
  }

  /** The number of keys reaches the capacity exactly when no slot is empty. */
  lemma {:induction false} FullMeansCapacity<D>(s: seq<Slot<D>>)
    requires DistinctKeys(s)
    ensures |Contents(s)| <= |s|
    ensures |Contents(s)| == |s| <==> Full(s)
  {
    if s != [] {
      var n := |s| - 1;
      assert DistinctKeys(s[..n]);
      FullMeansCapacity(s[..n]);
      if s[n].Entry? {
        LastKeyIsNew(s);
        assert |Contents(s)| == |Contents(s[..n])| + 1;
      }
      assert Full(s) <==> Full(s[..n]) && s[n].Entry?;
    }
  }

  /** One probe settles membership: it stops at the key, at an empty slot, or nowhere. */
  lemma {:induction false} ProbeFindsKey<D>(s: seq<Slot<D>>, hash: string -> nat, key: string)
    requires TableInv(s, hash)
    ensures var start := Home(hash, key, |s|);
            var d := Probe(s, key, start, 0);
            && (Holds(s, key) <==> d < |s| && s[Nth(start, d, |s|)].Entry?)
            && (d == |s| ==> Full(s))
            && (d < |s| && s[Nth(start, d, |s|)].Empty? ==> !Full(s))
  {
    var cap := |s|;
    var start := Home(hash, key, cap);
    var d := Probe(s, key, start, 0);
    if Holds(s, key) {
      var i :| 0 <= i < cap && s[i].Entry? && s[i].key == key;
      var e := Dist(start, i, cap);
      assert Stops(s[Nth(start, e, cap)], key);
      assert d <= e;
      if d < e {
        assert s[Nth(start, d, cap)].Entry?;
      }
    }
    if d == cap {
      forall i | 0 <= i < cap
        ensures s[i].Entry?
      {
        assert !Stops(s[Nth(start, Dist(start, i, cap), cap)], key);
      }
    }
  }

  // ---------------------------------------------------------------- entering a key

  /** The slot hsearch works on, when its probe stops. */
  function Target<D>(s: seq<Slot<D>>, hash: string -> nat, key: string): (i: nat)
    requires |s| > 0 && Probe(s, key, Home(hash, key, |s|), 0) < |s|
    ensures i < |s|
  {
    Nth(Home(hash, key, |s|), Probe(s, key, Home(hash, key, |s|), 0), |s|)
  }

  function EnterAt<D>(s: seq<Slot<D>>, hash: string -> nat, key: string, data: D): seq<Slot<D>>
    requires |s| > 0
  {
    if Probe(s, key, Home(hash, key, |s|), 0) == |s| then s
    else s[Target(s, hash, key) := Entry(key, data)]
  }

  lemma {:induction false} EnterKeepsInv<D>(s: seq<Slot<D>>, hash: string -> nat, key: string, data: D)
    requires TableInv(s, hash)
    ensures TableInv(EnterAt(s, hash, key, data), hash)
  {
    ProbeFindsKey(s, hash, key);
    var s' := EnterAt(s, hash, key, data);
    var cap := |s|;
    if s' != s {
      var t := Target(s, hash, key);
      var start := Home(hash, key, cap);
      forall i: nat, d: nat | i < cap && s'[i].Entry? && d < Dist(Home(hash, s'[i].key, cap), i, cap)
        ensures s'[Nth(Home(hash, s'[i].key, cap), d, cap)].Entry?
      {
        if i == t {
          assert !Stops(s[Nth(start, d, cap)], key);
        } else {
          assert s[Nth(Home(hash, s[i].key, cap), d, cap)].Entry?;
        }
      }
    }
  }

  lemma {:induction false} ContentsUpdate<D>(s: seq<Slot<D>>, i: nat, key: string, data: D)
    requires DistinctKeys(s) && i < |s|
    requires s[i].Empty? || s[i].key == key
    requires DistinctKeys(s[i := Entry(key, data)])
    ensures Contents(s[i := Entry(key, data)]) == Contents(s)[key := data]
  {
    var s' := s[i := Entry(key, data)];
    ContentsOfSlots(s);
    ContentsOfSlots(s');
    var m, m' := Contents(s)[key := data], Contents(s');
    forall k
      ensures k in m' <==> k in m
      ensures k in m' ==> m'[k] == m[k]
    {
      if Holds(s', k) {
        var j :| 0 <= j < |s'| && s'[j].Entry? && s'[j].key == k;
        assert j != i ==> s[j] == s'[j];
      }
      if Holds(s, k) {
        var j :| 0 <= j < |s| && s[j].Entry? && s[j].key == k;
        assert j != i ==> s'[j] == s[j];
      }
      assert s'[i].key == key;
    }
    assert m' == m;
  }

  /** ENTER is map update, unless the key is new and every slot is taken. */
  lemma {:induction false} EnterIsMapUpdate<D>(s: seq<Slot<D>>, hash: string -> nat, key: string, data: D)
    requires TableInv(s, hash)
    ensures Contents(EnterAt(s, hash, key, data))
         == if key !in Contents(s) && |Contents(s)| == |s| then Contents(s) else Contents(s)[key := data]
  {
    ProbeFindsKey(s, hash, key);
    EnterKeepsInv(s, hash, key, data);
    ContentsOfSlots(s);
    FullMeansCapacity(s);
    if Probe(s, key, Home(hash, key, |s|), 0) < |s| {
      ContentsUpdate(s, Target(s, hash, key), key, data);
    }
  }

  // ---------------------------------------------------------------- the table in place

  class Table<D(0)> {
    const hash: string -> nat
    var slots: array?<Slot<D>>
    var cap: nat

    ghost predicate Valid()
      reads this, slots
    {
      slots != null ==> cap == slots.Length && TableInv(slots[..], hash)
    }

    /** The finite map the table stands for. */
    ghost function View(): map<string, D>
      reads this, slots
    {
      if slots == null then map[] else Contents(slots[..])
    }

    constructor (hash: string -> nat)
      ensures Valid() && slots == null && View() == map[] && this.hash == hash
    {
      this.hash := hash;
      slots, cap := null, 0;
    }

    /** `callocWorks` says whether calloc finds memory. */
    method Hcreate(nel: nat, callocWorks: bool) returns (ok: bool)
      requires Valid()
      modifies this
      ensures Valid()
      ensures ok <==> old(slots) == null && callocWorks
      ensures old(slots) != null ==> slots == old(slots)
      ensures ok ==> slots != null && fresh(slots) && slots.Length == (if nel > 0 then nel else 64)
      ensures View() == old(View())
    {
      if slots != null {
        return false;
      }
      cap := if nel > 0 then nel else 64;
      if callocWorks {
        slots := new Slot<D>[cap](_ => Empty);
        NoEntriesNoContents(slots[..]);
      }
      ok := slots != null;
    }

    method Hdestroy()
      modifies this
      ensures Valid() && slots == null && View() == map[]
    {
      slots, cap := null, 0;
    }

    /** hsearch's loop: probe from the home slot until an empty slot, the key, or the start again. */
    method ProbeSlots(key: string) returns (stopped: bool, idx: nat)
      requires Valid() && slots != null
      ensures stopped <==> Probe(slots[..], key, Home(hash, key, cap), 0) < cap
      ensures stopped ==> idx == Target(slots[..], hash, key)
    {
      var start := hash(key) % cap;
      idx := start;
      ghost var s := slots[..];
      ghost var d := 0;
      while true
        invariant d < cap && idx == Nth(start, d, cap)
        invariant Probe(s, key, start, 0) == Probe(s, key, start, d)
        decreases cap - d
      {
        if slots[idx].Empty? || slots[idx].key == key {
          return true, idx;
        }
        NextProbe(idx, cap);
        idx := (idx + 1) % cap;
        d := d + 1;
        if idx == start {
          return false, idx;
        }
      }
    }

    method Hsearch(item: Key, data: D, action: Action) returns (r: Outcome)
      requires Valid()
      modifies slots
      ensures Valid()
      ensures r == Failed(EINVAL) <==> slots == null || item.Null?
      ensures slots != null && item.Str? ==> Correct(old(View()), View(), cap, item.s, data, action, r)
      ensures r.Found? ==> slots != null && item.Str? && r.idx < slots.Length && slots[r.idx].Entry?
      ensures r.Found? ==> slots[r.idx].key == item.s && item.s in View() && slots[r.idx].data == View()[item.s]
      ensures slots != null && item.Str? && action.Enter? ==> slots[..] == EnterAt(old(slots[..]), hash, item.s, data)
      ensures slots != null && (item.Null? || action.Find?) ==> slots[..] == old(slots[..])
    {
      if slots == null || item.Null? {
        return Failed(EINVAL);
      }
      var key := item.s;
      ghost var s := slots[..];
      SearchMeaning(s, hash, key, data);
      var stopped, idx := ProbeSlots(key);
      if !stopped {
        return Failed(ENOSPC);
      }
      if slots[idx].Empty? && action.Find? {
        return Failed(ESRCH);
      }
      if action.Enter? {
        slots[idx] := if slots[idx].Empty? then Entry(key, data) else slots[idx].(data := data);
        assert slots[..] == EnterAt(s, hash, key, data);
      }
      r := Found(idx);
    }
  }

  /** hsearch on a table standing for m, leaving one standing for m'. */
  ghost predicate Correct<D>(m: map<string, D>, m': map<string, D>, cap: nat, key: string, data: D,
                             action: Action, r: Outcome)
  {
    && (r.Found? <==> key in m || (action.Enter? && |m| < cap))
    && (r == Failed(ENOSPC) <==> key !in m && |m| == cap)
    && (r == Failed(ESRCH) <==> key !in m && |m| < cap && action.Find?)
    && m' == (if r.Found? && action.Enter? then m[key := data] else m)
  }

  lemma NextProbe(i: nat, cap: nat)
    requires i < cap
    ensures (i + 1) % cap == if i + 1 < cap then i + 1 else 0
  {
  }

  /** What the outcome of the probe says about the map. */
  lemma {:induction false} SearchMeaning<D>(s: seq<Slot<D>>, hash: string -> nat, key: string, data: D)
    requires TableInv(s, hash)
    ensures Probe(s, key, Home(hash, key, |s|), 0) == |s| ==> key !in Contents(s) && |Contents(s)| == |s|
    ensures Probe(s, key, Home(hash, key, |s|), 0) < |s| ==>
      var slot := s[Target(s, hash, key)];
      && (slot.Empty? ==> key !in Contents(s) && |Contents(s)| < |s|)
      && (slot.Entry? ==> slot.key == key && key in Contents(s) && slot.data == Contents(s)[key])
    ensures |Contents(s)| <= |s|
    ensures TableInv(EnterAt(s, hash, key, data), hash)
    ensures Contents(EnterAt(s, hash, key, data))
         == if key !in Contents(s) && |Contents(s)| == |s| then Contents(s) else Contents(s)[key := data]
  {
    ProbeFindsKey(s, hash, key);
    ContentsOfSlots(s);
    FullMeansCapacity(s);
    EnterKeepsInv(s, hash, key, data);
    EnterIsMapUpdate(s, hash, key, data);
  }

  lemma {:induction false} NoEntriesNoContents<D>(s: seq<Slot<D>>)
    requires forall i :: 0 <= i < |s| ==> s[i].Empty?
    ensures Contents(s) == map[]
  {
    if s != [] {
      NoEntriesNoContents(s[..|s| - 1]);
    }
  }

  // ---------------------------------------------------------------- whole runs

  /** The array after hcreate(cap) and an hsearch ENTER for each item. */
  function EnterAll<D>(hash: string -> nat, cap: nat, items: seq<(string, D)>): (s: seq<Slot<D>>)
    requires cap > 0
    ensures |s| == cap
  {
    if items == [] then seq(cap, _ => Empty)
    else
      var (key, data) := items[|items| - 1];
      EnterAt(EnterAll(hash, cap, items[..|items| - 1]), hash, key, data)
  }

  /** A finite map that refuses a new key once it has cap of them. */
  ghost function BoundedMap<D>(cap: nat, items: seq<(string, D)>): map<string, D> {
    if items == [] then map[]
    else
      var m, (key, data) := BoundedMap(cap, items[..|items| - 1]), items[|items| - 1];
      if key !in m && |m| == cap then m else m[key := data]
  }

  /** After any calls the table is the bounded map, and FIND answers membership in it. */
  lemma {:induction false} TableIsBoundedMap<D>(hash: string -> nat, cap: nat, items: seq<(string, D)>, key: string)
    requires cap > 0
    ensures var s := EnterAll(hash, cap, items);
            && TableInv(s, hash)
            && Contents(s) == BoundedMap(cap, items)
            && (key in BoundedMap(cap, items) <==>
                  Probe(s, key, Home(hash, key, cap), 0) < cap && s[Target(s, hash, key)].Entry?)
  {
    if items == [] {
      NoEntriesNoContents(EnterAll(hash, cap, items));
    } else {
      var (k, data) := items[|items| - 1];
      TableIsBoundedMap(hash, cap, items[..|items| - 1], k);
      SearchMeaning(EnterAll(hash, cap, items[..|items| - 1]), hash, k, data);
    }
    var s := EnterAll(hash, cap, items);
    ProbeFindsKey(s, hash, key);
    ContentsOfSlots(s);
  }
}
