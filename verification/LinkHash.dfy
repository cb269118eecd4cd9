/** linkhash.c: open addressing with tombstones, and a doubly linked list through the slots.
    This module has the invariants and what the operations do to them; the class is in
    LinkHashTable. */
module LinkHash {
  /** A pointer to a value that the table does not look into; 0 is NULL. */
  type Pointer = nat

  /** lh_entry.k with its two sentinels. */
  datatype Key<K> = Empty | Freed | Live(key: K)

  /** struct lh_entry; the pointers next and prev are positions in the table, -1 is NULL. */
  datatype Slot<K> = Slot(k: Key<K>, isConst: bool, v: Pointer, next: int, prev: int)

  /** What a caller sees of an entry. */
  datatype Item<K> = Item(key: K, v: Pointer, isConst: bool)

  // ------------------------------------------------------------ the list

  /** The i-th position in the list, -1 before the first and behind the last. */
  function At(order: seq<nat>, i: int): int { if 0 <= i < |order| then order[i] else -1 }

  ghost predicate Distinct(order: seq<nat>) {
    forall i, j | 0 <= i < j < |order| :: order[i] != order[j]
  }

  /** The positions are those of live slots, each once, and of all live slots. */
  ghost predicate Lives<K>(s: seq<Slot<K>>, order: seq<nat>) {
    && Distinct(order)
    && (forall i | 0 <= i < |order| :: order[i] < |s| && s[order[i]].k.Live?)
    && (forall n | 0 <= n < |s| && s[n].k.Live? :: n in order)
  }

  predicate LinkOk<K>(s: seq<Slot<K>>, order: seq<nat>, i: nat)
    requires i < |order| && order[i] < |s|
  {
    s[order[i]].next == At(order, i + 1) && s[order[i]].prev == At(order, i - 1)
  }

  /** The list that starts at head runs through the live slots in the given order, and back. */
  ghost predicate Linked<K>(s: seq<Slot<K>>, order: seq<nat>, head: int, tail: int) {
    && Lives(s, order)
    && head == At(order, 0) && tail == At(order, |order| - 1)
    && (forall i {:trigger LinkOk(s, order, i)} | 0 <= i < |order| :: LinkOk(s, order, i))
  }

  function ItemOf<K>(slot: Slot<K>): Item<K>
    requires slot.k.Live?
  {
    Item(slot.k.key, slot.v, slot.isConst)
  }

  /** The entries in the order of the list. */
  ghost function Items<K>(s: seq<Slot<K>>, order: seq<nat>): (r: seq<Item<K>>)
    requires forall i | 0 <= i < |order| :: order[i] < |s| && s[order[i]].k.Live?
    ensures |r| == |order|
  {
    seq(|order|, i requires 0 <= i < |order| => ItemOf(s[order[i]]))
  }

  /** prev undoes next, and next undoes prev. */
  lemma LinksAreInverse<K>(s: seq<Slot<K>>, order: seq<nat>, head: int, tail: int, n: nat)
    requires Linked(s, order, head, tail) && n < |s| && s[n].k.Live?
    ensures s[n].next == -1 <==> n == tail
    ensures s[n].prev == -1 <==> n == head
    ensures s[n].next != -1 ==> 0 <= s[n].next < |s| && s[s[n].next].k.Live? && s[s[n].next].prev == n
    ensures s[n].prev != -1 ==> 0 <= s[n].prev < |s| && s[s[n].prev].k.Live? && s[s[n].prev].next == n
  {
    var i: nat :| i < |order| && order[i] == n;
    assert LinkOk(s, order, i);
    if i + 1 < |order| { assert LinkOk(s, order, i + 1); }
    if i > 0 { assert LinkOk(s, order, i - 1); }
  }

  // ------------------------------------------------------------ probing

  /** Is m met on the way from home to n, going up and around the end of the table? */
  predicate InRun(home: nat, n: nat, m: nat) {
    if home <= n then home <= m < n else home <= m || m < n
  }

  function Home<K>(hash: K -> nat, key: K, size: nat): nat
    requires size > 0
  {
    hash(key) % size
  }

  /** No never-used slot lies between the home of a live key and its slot. */
  ghost predicate Probed<K>(s: seq<Slot<K>>, hash: K -> nat) {
    |s| > 0 &&
    forall n, m | 0 <= n < |s| && 0 <= m < |s| && s[n].k.Live? && InRun(Home(hash, s[n].k.key, |s|), n, m) ::
      s[m].k != Empty
  }

  function Step(n: nat, size: nat): nat { if n + 1 == size then 0 else n + 1 }

  /** How far it is from n up to f, going around the end. */
  function Distance(n: nat, f: nat, size: nat): nat
    requires n < size && f < size
  {
    if n <= f then f - n else size - n + f
  }

  lemma StepCloser(n: nat, f: nat, size: nat)
    requires n < size && f < size && n != f
    ensures Step(n, size) < size && Distance(Step(n, size), f, size) == Distance(n, f, size) - 1
  {
  }

  /** One more slot has been passed, unless the search has come around. */
  lemma RunGrows(home: nat, n: nat, m: nat, size: nat)
    requires home < size && n < size && m < size
    ensures Step(n, size) != home ==> (InRun(home, Step(n, size), m) <==> InRun(home, n, m) || m == n)
    ensures Step(n, size) == home ==> InRun(home, n, m) || m == n
  {
  }

  // ------------------------------------------------------------ load

  /** t->count >= t->size * LH_LOAD_FACTOR */
  predicate Full(count: nat, size: nat) { 100 * count >= 66 * size }

  /** LH_LOAD_FACTOR is 0.66. */
  lemma LoadLimit(count: nat, size: nat)
    ensures Full(count, size) <==> count as real >= size as real * 0.66
  {
    assert (100 * count) as real == 100.0 * count as real && (66 * size) as real == 66.0 * size as real;
  }

  /** count entries can be inserted one after the other and none of them finds the table full. */
  predicate Room(count: nat, size: nat) { count > 0 ==> !Full(count - 1, size) }

  lemma DoubledHasRoom(count: nat, size: nat)
    requires size > 0 && Room(count, size)
    ensures Room(count, 2 * size) && !Full(count, 2 * size)
  {
  }

  /** Fewer entries than slots: some slot is not live. */
  lemma SomeSlotIsFree<K>(s: seq<Slot<K>>, order: seq<nat>) returns (f: nat)
    requires |order| < |s|
    requires forall n | 0 <= n < |s| && s[n].k.Live? :: n in order
    ensures f < |s| && !s[f].k.Live?
  {
    if Below(|s|) <= Elements(order) { Subset(Below(|s|), Elements(order)); }
    f :| f in Below(|s|) && f !in Elements(order);
  }

  ghost function Below(k: nat): (r: set<nat>)
    ensures |r| == k && forall n :: n in r <==> 0 <= n < k
  {
    if k == 0 then {} else Below(k - 1) + {k - 1}
  }

  ghost function Elements(order: seq<nat>): (r: set<nat>)
    ensures |r| <= |order| && forall n :: n in r <==> n in order
  {
    if order == [] then {} else {order[0]} + Elements(order[1..])
  }

  lemma {:induction false} Subset(a: set<nat>, b: set<nat>)
    requires a <= b
    ensures |a| <= |b|
    decreases |a|
  {
    if a != {} {
      var x :| x in a;
      Subset(a - {x}, b - {x});
    }
  }

  // ------------------------------------------------------------ a new entry

  /** The slots after an entry has been put into slot n behind the tail. */
  function Put<K>(s: seq<Slot<K>>, n: nat, key: K, v: Pointer, isConst: bool, tail: int): seq<Slot<K>>
    requires n < |s| && tail < |s| && tail != n
  {
    var s1 := s[n := Slot(Live(key), isConst, v, -1, tail)];
    if tail < 0 then s1 else s1[tail := s1[tail].(next := n)]
  }

  lemma PutLives<K>(s: seq<Slot<K>>, order: seq<nat>, n: nat, key: K, v: Pointer, isConst: bool, tail: int)
    requires Lives(s, order) && n < |s| && !s[n].k.Live? && tail == At(order, |order| - 1)
    ensures tail != n && tail < |s| && Lives(Put(s, n, key, v, isConst, tail), order + [n])
  {
    var s1, o1 := Put(s, n, key, v, isConst, tail), order + [n];
    assert n !in order;
    forall m | 0 <= m < |s1| && s1[m].k.Live? ensures m in o1 {
      if m != n { assert s[m].k.Live?; } else { assert o1[|order|] == n; }
    }
  }

  /** The new entry is the last of the list, and nothing else changes. */
  lemma PutKeeps<K>(s: seq<Slot<K>>, order: seq<nat>, head: int, tail: int, n: nat, key: K, v: Pointer, isConst: bool)
    requires Linked(s, order, head, tail) && n < |s| && !s[n].k.Live?
    ensures tail != n && tail < |s|
    ensures var s1 := Put(s, n, key, v, isConst, tail);
            && Linked(s1, order + [n], if order == [] then n else head, n)
            && Items(s1, order + [n]) == Items(s, order) + [Item(key, v, isConst)]
  {
    PutLives(s, order, n, key, v, isConst, tail);
    var s1, o1 := Put(s, n, key, v, isConst, tail), order + [n];
    forall i | 0 <= i < |o1|
      ensures LinkOk(s1, o1, i)
      ensures Items(s1, o1)[i] == (Items(s, order) + [Item(key, v, isConst)])[i]
    {
      if i < |order| {
        assert LinkOk(s, order, i) && order[i] == o1[i] && order[i] != n;
        if i + 1 < |order| { assert order[i] != order[|order| - 1]; }
      }
    }
  }

  lemma PutProbed<K>(s: seq<Slot<K>>, hash: K -> nat, n: nat, key: K, v: Pointer, isConst: bool, tail: int)
    requires Probed(s, hash) && n < |s| && tail < |s| && tail != n
    requires forall m | 0 <= m < |s| && InRun(Home(hash, key, |s|), n, m) :: s[m].k.Live?
    ensures Probed(Put(s, n, key, v, isConst, tail), hash)
  {
    var s1 := Put(s, n, key, v, isConst, tail);
    forall k, m | 0 <= k < |s1| && 0 <= m < |s1| && s1[k].k.Live? && InRun(Home(hash, s1[k].k.key, |s1|), k, m)
      ensures s1[m].k != Empty
    {
      if k == n {
        assert m != n ==> s[m].k.Live?;
      } else {
        assert s[k].k == s1[k].k;
        assert m != n ==> s[m].k != Empty;
      }
    }
  }

  // ------------------------------------------------------------ a deleted entry

  /** The slots after the entry in slot n has been taken out. */
  function Unlinked<K>(s: seq<Slot<K>>, n: nat): seq<Slot<K>>
    requires n < |s| && s[n].prev < |s| && s[n].next < |s|
  {
    var a, b := s[n].prev, s[n].next;
    var s0 := s[n := Slot(Freed, s[n].isConst, 0, -1, -1)];
    var s1 := if a < 0 then s0 else s0[a := s0[a].(next := b)];
    if b < 0 then s1 else s1[b := s1[b].(prev := a)]
  }

  function WithoutAt<T>(q: seq<T>, i: nat): (r: seq<T>)
    requires i < |q|
    ensures |r| == |q| - 1
    ensures forall j | 0 <= j < |r| :: r[j] == q[if j < i then j else j + 1]
  {
    q[..i] + q[i + 1..]
  }

  lemma Neighbours<K>(s: seq<Slot<K>>, order: seq<nat>, head: int, tail: int, i: nat)
    requires Linked(s, order, head, tail) && i < |order|
    ensures var n := order[i];
            && s[n].prev == At(order, i - 1) < |s| && s[n].next == At(order, i + 1) < |s|
            && (head == n <==> i == 0) && (tail == n <==> i == |order| - 1)
  {
    assert LinkOk(s, order, i);
  }

  lemma UnlinkLives<K>(s: seq<Slot<K>>, order: seq<nat>, i: nat)
    requires Lives(s, order) && i < |order|
    requires s[order[i]].prev < |s| && s[order[i]].next < |s|
    ensures Lives(Unlinked(s, order[i]), WithoutAt(order, i))
  {
    var n, o1 := order[i], WithoutAt(order, i);
    var s1 := Unlinked(s, n);
    forall m | 0 <= m < |s1| && s1[m].k.Live? ensures m in o1 {
      assert s[m].k.Live? && m != n;
      var j: nat :| j < |order| && order[j] == m;
      assert o1[if j < i then j else j - 1] == m;
    }
  }

  /** The entry is out of the list, and the others stay as they were. */
  lemma UnlinkKeeps<K>(s: seq<Slot<K>>, order: seq<nat>, head: int, tail: int, i: nat)
    requires Linked(s, order, head, tail) && i < |order|
    ensures var n, o1 := order[i], WithoutAt(order, i);
            && s[n].prev < |s| && s[n].next < |s|
            && Linked(Unlinked(s, n), o1, if head == n then s[n].next else head, if tail == n then s[n].prev else tail)
            && Items(Unlinked(s, n), o1) == WithoutAt(Items(s, order), i)
  {
    Neighbours(s, order, head, tail, i);
    UnlinkLives(s, order, i);
    var n, o1 := order[i], WithoutAt(order, i);
    forall j | 0 <= j < |o1|
      ensures LinkOk(Unlinked(s, n), o1, j)
      ensures Items(Unlinked(s, n), o1)[j] == WithoutAt(Items(s, order), i)[j]
    {
      UnlinkOne(s, order, head, tail, i, j);
    }
  }

  /** The list positions around a removed one. */
  lemma AtWithout(order: seq<nat>, i: nat, j: int)
    requires i < |order|
    ensures At(WithoutAt(order, i), j) == At(order, if j < i then j else j + 1)
  {
  }

  /** A slot of the list other than the one taken out. */
  lemma UnlinkedSlot<K>(s: seq<Slot<K>>, n: nat, m: nat)
    requires n < |s| && s[n].prev < |s| && s[n].next < |s| && m < |s| && m != n
    ensures |Unlinked(s, n)| == |s|
    ensures Unlinked(s, n)[m]
            == s[m].(next := if m == s[n].prev then s[n].next else s[m].next,
                     prev := if m == s[n].next then s[n].prev else s[m].prev)
  {
  }

  lemma UnlinkOne<K>(s: seq<Slot<K>>, order: seq<nat>, head: int, tail: int, i: nat, j: nat)
    requires Linked(s, order, head, tail) && i < |order| && j < |order| - 1
    requires s[order[i]].prev == At(order, i - 1) < |s| && s[order[i]].next == At(order, i + 1) < |s|
    ensures var s1, o1 := Unlinked(s, order[i]), WithoutAt(order, i);
            && o1[j] < |s1| && s1[o1[j]].k.Live? && LinkOk(s1, o1, j)
            && ItemOf(s1[o1[j]]) == ItemOf(s[order[if j < i then j else j + 1]])
  {
    var k := if j < i then j else j + 1;
    hide Unlinked;
    LinkOfOther(s, order, head, tail, i, k);
    UnlinkedSlot(s, order[i], order[k]);
    AtWithout(order, i, j - 1);
    AtWithout(order, i, j + 1);
  }

  lemma LinkOfOther<K>(s: seq<Slot<K>>, order: seq<nat>, head: int, tail: int, i: nat, k: nat)
    requires Linked(s, order, head, tail) && i < |order| && k < |order| && k != i
    ensures order[k] < |s| && s[order[k]].k.Live? && LinkOk(s, order, k) && order[k] != order[i]
    ensures At(order, i - 1) == order[k] <==> k == i - 1
    ensures At(order, i + 1) == order[k] <==> k == i + 1
  {
    assert LinkOk(s, order, k);
  }

  lemma UnlinkProbed<K>(s: seq<Slot<K>>, hash: K -> nat, n: nat)
    requires Probed(s, hash) && n < |s| && s[n].prev < |s| && s[n].next < |s|
    ensures Probed(Unlinked(s, n), hash)
  {
    var s1 := Unlinked(s, n);
    forall k, m | 0 <= k < |s1| && 0 <= m < |s1| && s1[k].k.Live? && InRun(Home(hash, s1[k].k.key, |s1|), k, m)
      ensures s1[m].k != Empty
    {
      assert k != n && s[k].k == s1[k].k;
      assert s[m].k != Empty;
    }
  }
}
