/** Reference counts of json_object.c: heaps of objects, what their counts must be, and what
    taking and dropping references does to them. */
module RefCounts {
  /** The address of an object; 0 is NULL. */
  type Ref = nat

  datatype Member = Member(key: string, v: Ref)

  /** What an object holds: array slots or table entries.  deleted says that
      json_object_array_del_idx has been used on the array. */
  datatype Body = Scalar | Array(items: seq<Ref>, deleted: bool) | Object(members: seq<Member>)

  /** A struct json_object, or an address that has been given back. */
  datatype Cell = Free | Node(rc: nat, body: Body)

  type Heap = seq<Cell>

  function Refs(body: Body): (r: seq<Ref>) {
    match body
    case Scalar => []
    case Array(items, _) => items
    case Object(members) => seq(|members|, i requires 0 <= i < |members| => members[i].v)
  }

  function Rc(h: Heap, x: Ref): nat { if x < |h| && h[x].Node? then h[x].rc else 0 }

  /** The references in the slots of an object that is not being deleted. */
  function Out(c: Cell): multiset<Ref> {
    if c.Node? && c.rc > 0 then multiset(Refs(c.body)) else multiset{}
  }

  function Slots(h: Heap): multiset<Ref> {
    if h == [] then multiset{} else Slots(h[..|h| - 1]) + Out(h[|h| - 1])
  }

  lemma {:induction false} SlotsUpdate(h: Heap, i: nat, c: Cell, y: Ref)
    requires i < |h|
    ensures Slots(h[i := c])[y] + Out(h[i])[y] == Slots(h)[y] + Out(c)[y]
    decreases |h|
  {
    hide Out;
    var n := |h| - 1;
    if i < n {
      SlotsUpdate(h[..n], i, c, y);
      assert h[i := c][..n] == h[..n][i := c];
    } else {
      assert h[i := c][..n] == h[..n];
    }
  }

  lemma {:induction false} SlotsContain(h: Heap, i: nat, y: Ref)
    requires i < |h|
    ensures Out(h[i])[y] <= Slots(h)[y]
    decreases |h|
  {
    hide Out;
    var n := |h| - 1;
    if i < n { SlotsContain(h[..n], i, y); }
  }

  /** A reference in a slot is in the slot of some object. */
  lemma {:induction false} SlotHasOwner(h: Heap, y: Ref) returns (i: nat)
    requires Slots(h)[y] > 0
    ensures i < |h| && Out(h[i])[y] > 0
    decreases |h|
  {
    hide Out;
    var n := |h| - 1;
    if Out(h[n])[y] > 0 { i := n; } else { i := SlotHasOwner(h[..n], y); }
  }

  /** The sum of all counts. */
  function Total(h: Heap): nat {
    if h == [] then 0 else Total(h[..|h| - 1]) + Rc(h, |h| - 1)
  }

  lemma {:induction false} TotalUpdate(h: Heap, i: nat, c: Cell)
    requires i < |h|
    ensures Total(h[i := c]) + Rc(h, i) == Total(h) + Rc(h[i := c], i)
    decreases |h|
  {
    var n := |h| - 1;
    if i < n {
      TotalUpdate(h[..n], i, c);
      assert h[i := c][..n] == h[..n][i := c];
    } else {
      assert h[i := c][..n] == h[..n];
    }
  }

  // ------------------------------------------------------------ balance

  /** Every count is the number of references that are owed to the object, by callers or by
      a deletion under way, and of slots that hold it; stale slots count no longer. */
  ghost predicate Balanced(h: Heap, owed: multiset<Ref>, stale: multiset<Ref>) {
    forall x: Ref | x > 0 :: Rc(h, x) + stale[x] == owed[x] + Slots(h)[x]
  }

  /** The stale slots are those of an owner outside the zone that a deletion can reach. */
  ghost predicate Safe(h: Heap, zone: iset<Ref>, owner: Ref, stale: multiset<Ref>) {
    stale == multiset{} || (owner !in zone && owner < |h| && stale <= Out(h[owner]))
  }

  ghost predicate Closed(h: Heap, zone: iset<Ref>) {
    forall x, r | x in zone && x < |h| && h[x].Node? && r in Refs(h[x].body) :: r == 0 || r in zone
  }

  lemma OwedIsLive(h: Heap, owed: multiset<Ref>, zone: iset<Ref>, owner: Ref, stale: multiset<Ref>, x: Ref)
    requires Balanced(h, owed, stale) && Safe(h, zone, owner, stale) && x > 0 && owed[x] > 0
    ensures Rc(h, x) > 0
  {
    hide Slots, Out;
    if stale != multiset{} { SlotsContain(h, owner, x); }
  }

  /** One reference of several is dropped. */
  lemma DropOne(h: Heap, owed: multiset<Ref>, stale: multiset<Ref>, x: Ref)
    requires Balanced(h, owed, stale) && x > 0 && owed[x] > 0 && Rc(h, x) > 1
    ensures var h1 := h[x := h[x].(rc := h[x].rc - 1)];
            Balanced(h1, owed - multiset{x}, stale) && Total(h1) == Total(h) - 1
  {
    hide Slots;
    var h1 := h[x := h[x].(rc := h[x].rc - 1)];
    TotalUpdate(h, x, h1[x]);
    forall y: Ref | y > 0 ensures Rc(h1, y) + stale[y] == (owed - multiset{x})[y] + Slots(h1)[y] {
      SlotsUpdate(h, x, h1[x], y);
      assert Rc(h, y) + stale[y] == owed[y] + Slots(h)[y];
    }
  }

  /** The last reference is dropped: what the object held is now owed by its deletion. */
  lemma DropLast(h: Heap, owed: multiset<Ref>, stale: multiset<Ref>, x: Ref)
    requires Balanced(h, owed, stale) && x > 0 && owed[x] > 0 && Rc(h, x) == 1
    ensures var h1 := h[x := h[x].(rc := 0)];
            && Balanced(h1, owed - multiset{x} + multiset(Refs(h[x].body)), stale)
            && Total(h1) == Total(h) - 1
  {
    hide Slots, Refs;
    var h1 := h[x := h[x].(rc := 0)];
    TotalUpdate(h, x, h1[x]);
    forall y: Ref | y > 0
      ensures Rc(h1, y) + stale[y] == (owed - multiset{x} + multiset(Refs(h[x].body)))[y] + Slots(h1)[y]
    {
      SlotsUpdate(h, x, h1[x], y);
      assert Rc(h, y) + stale[y] == owed[y] + Slots(h)[y];
    }
  }

  /** The memory of an object without references is given back. */
  lemma GiveBack(h: Heap, owed: multiset<Ref>, stale: multiset<Ref>, x: Ref)
    requires Balanced(h, owed, stale) && x < |h| && h[x].Node? && h[x].rc == 0
    ensures Balanced(h[x := Free], owed, stale) && Total(h[x := Free]) == Total(h)
  {
    hide Slots;
    TotalUpdate(h, x, Free);
    forall y: Ref | y > 0 ensures Rc(h[x := Free], y) + stale[y] == owed[y] + Slots(h[x := Free])[y] {
      SlotsUpdate(h, x, Free, y);
      assert Rc(h, y) + stale[y] == owed[y] + Slots(h)[y];
    }
  }

  // ------------------------------------------------------------ what a deletion may change

  /** An object after some references have been dropped: it lives on with what it holds, or
      it has been given back.  One that is being deleted already is left alone. */
  predicate Later(c: Cell, d: Cell) {
    if c.Free? || c.rc == 0 then d == c
    else d.Free? || (0 < d.rc <= c.rc && d.body == c.body)
  }

  ghost predicate AllLater(h: Heap, g: Heap) {
    |g| == |h| && forall x | 0 <= x < |h| :: Later(h[x], g[x])
  }

  ghost predicate SameOutside(h: Heap, g: Heap, zone: iset<Ref>) {
    |g| == |h| && forall x: nat | x < |h| && x !in zone :: g[x] == h[x]
  }

  /** The objects given back, each once. */
  ghost predicate GivenBack(h: Heap, g: Heap, freed: seq<Ref>) {
    && |g| == |h|
    && (forall i, j | 0 <= i < j < |freed| :: freed[i] != freed[j])
    && (forall x: Ref :: x in freed <==> x < |h| && h[x].Node? && g[x].Free?)
  }

  lemma LaterTransitive(h: Heap, g: Heap, k: Heap)
    requires AllLater(h, g) && AllLater(g, k)
    ensures AllLater(h, k)
  {
    forall x | 0 <= x < |h| ensures Later(h[x], k[x]) {
      assert Later(h[x], g[x]) && Later(g[x], k[x]);
    }
  }

  lemma SameTransitive(h: Heap, g: Heap, k: Heap, zone: iset<Ref>)
    requires SameOutside(h, g, zone) && SameOutside(g, k, zone)
    ensures SameOutside(h, k, zone)
  {
  }

  lemma GivenBackMore(h: Heap, g: Heap, k: Heap, a: seq<Ref>, b: seq<Ref>)
    requires AllLater(g, k) && AllLater(h, g) && GivenBack(h, g, a) && GivenBack(g, k, b)
    ensures GivenBack(h, k, a + b)
  {
    forall x: Ref ensures x in a + b <==> x < |h| && h[x].Node? && k[x].Free? {
      if x < |h| { assert Later(h[x], g[x]) && Later(g[x], k[x]); }
    }
    forall i, j | 0 <= i < j < |a + b| ensures (a + b)[i] != (a + b)[j] {
      if i < |a| <= j { assert a[i] in a && b[j - |a|] in b; }
    }
  }

  lemma StillClosed(h: Heap, g: Heap, zone: iset<Ref>)
    requires Closed(h, zone) && AllLater(h, g)
    ensures Closed(g, zone)
  {
    forall x, r | x in zone && x < |g| && g[x].Node? && r in Refs(g[x].body) ensures r == 0 || r in zone {
      assert Later(h[x], g[x]);
    }
  }

  // ------------------------------------------------------------ changing what an object holds

  /** The reference in a slot becomes one that a deletion owes, and the slot stale. */
  lemma SlotGoes(h: Heap, owed: multiset<Ref>, stale: multiset<Ref>, r: Ref)
    requires Balanced(h, owed, stale)
    ensures Balanced(h, owed + multiset{r}, stale + multiset{r})
  {
    hide Slots;
    forall x: Ref | x > 0 ensures Rc(h, x) + (stale + multiset{r})[x] == (owed + multiset{r})[x] + Slots(h)[x] {
      assert Rc(h, x) + stale[x] == owed[x] + Slots(h)[x];
    }
  }

  /** The slots of object x are rewritten: stale references go, and those of added, which
      a caller owned, come. */
  lemma BodyChanged(h: Heap, owed: multiset<Ref>, stale: multiset<Ref>, added: multiset<Ref>, x: Ref, body: Body)
    requires Balanced(h, owed, stale) && x < |h| && h[x].Node? && h[x].rc > 0
    requires forall y: Ref | y > 0 :: added[y] <= owed[y]
    requires forall y: Ref | y > 0 ::
               multiset(Refs(body))[y] + stale[y] == multiset(Refs(h[x].body))[y] + added[y]
    ensures Balanced(h[x := h[x].(body := body)], owed - added, multiset{})
  {
    hide Slots, Refs;
    var h1 := h[x := h[x].(body := body)];
    forall y: Ref | y > 0 ensures Rc(h1, y) + multiset{}[y] == (owed - added)[y] + Slots(h1)[y] {
      SlotsUpdate(h, x, h1[x], y);
      assert Rc(h, y) + stale[y] == owed[y] + Slots(h)[y];
    }
  }

  /** A new object, with the reference that its creator gets. */
  lemma Created(h: Heap, held: multiset<Ref>, body: Body)
    requires Balanced(h, held, multiset{}) && Refs(body) == [] && h != []
    ensures Balanced(h + [Node(1, body)], held + multiset{|h|}, multiset{})
  {
    hide Slots;
    var h1 := h + [Node(1, body)];
    NewSlots(h, body);
    forall y: Ref | y > 0 ensures Rc(h1, y) + multiset{}[y] == (held + multiset{|h|})[y] + Slots(h1)[y] {
      assert Rc(h, y) + multiset{}[y] == held[y] + Slots(h)[y];
    }
  }

  lemma NewSlots(h: Heap, body: Body)
    requires Refs(body) == []
    ensures Slots(h + [Node(1, body)]) == Slots(h)
  {
    assert (h + [Node(1, body)])[..|h|] == h;
  }

  lemma Shared(h: Heap, held: multiset<Ref>, x: Ref)
    requires Balanced(h, held, multiset{}) && x < |h| && h[x].Node? && h[x].rc > 0
    ensures Balanced(h[x := h[x].(rc := h[x].rc + 1)], held + multiset{x}, multiset{})
  {
    hide Slots;
    var h1 := h[x := h[x].(rc := h[x].rc + 1)];
    forall y: Ref | y > 0 ensures Rc(h1, y) + multiset{}[y] == (held + multiset{x})[y] + Slots(h1)[y] {
      SlotsUpdate(h, x, h1[x], y);
      assert Rc(h, y) + multiset{}[y] == held[y] + Slots(h)[y];
    }
  }
}
