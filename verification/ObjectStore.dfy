/** json_object.c: creating, sharing, storing and releasing objects. */
module ObjectStore {
  import opened RefCounts
  import opened ObjectGraph

  class Store {
    var heap: Heap
    /** The objects whose memory has been given back, in that order. */
    var freed: seq<Ref>
    /** The references that callers own. */
    ghost var held: multiset<Ref>

    ghost predicate Valid()
      reads this
    {
      Consistent(heap, held) && Acyclic(heap)
    }

    constructor ()
      ensures Valid() && held == multiset{} && freed == [] && heap == [Free]
    {
      heap, freed, held := [Free], [], multiset{};
      new;
      assert Slots(heap) == Slots(heap[..0]) + multiset{};
      assert Ranked(heap, [0]);
    }

    // ---------------------------------------------------------- json_object_put

    /** json_object_put with all that it sets off.  One of the references owed to x goes;
        owner and stale tell of slots that still hold references which are gone. */
    method Drop(x: Ref, ghost owed: multiset<Ref>, ghost zone: iset<Ref>, ghost owner: Ref, ghost stale: multiset<Ref>)
      returns (status: int, ghost gone: seq<Ref>)
      requires Balanced(heap, owed, stale) && Safe(heap, zone, owner, stale) && Closed(heap, zone)
      requires x > 0 ==> owed[x] > 0 && x in zone
      modifies this`heap, this`freed
      ensures Balanced(heap, owed - multiset{x}, stale)
      ensures AllLater(old(heap), heap) && SameOutside(old(heap), heap, zone)
      ensures GivenBack(old(heap), heap, gone) && freed == old(freed) + gone
      ensures Total(heap) <= Total(old(heap))
      ensures status == 1 <==> x in gone
      decreases Total(heap)
    {
      hide Balanced, Safe, Closed, Slots, Total, AllLater, SameOutside, GivenBack, Refs;
      gone := [];
      ghost var h0 := heap;
      NothingDropped(h0, zone);
      if x == 0 {
        NullOwed(heap, owed, stale);
        return 0, gone;
      }
      OwedIsLive(heap, owed, zone, owner, stale, x);
      heap := heap[x := heap[x].(rc := heap[x].rc - 1)];
      if heap[x].rc > 0 {
        DropOne(h0, owed, stale, x);
        OneDropped(h0, zone, x);
        return 0, gone;
      }
      DropLast(h0, owed, stale, x);
      ghost var h1 := heap;
      NothingDropped(h1, zone);
      LastDropped(h0, zone, owner, stale, x);
      var refs := Refs(heap[x].body);
      ghost var rest := owed - multiset{x};
      assert refs[0..] == refs;
      var i := 0;
      // array_list_free skips NULLs; lh_table_free hands them to json_object_put, which ignores them
      while i < |refs|
        invariant i <= |refs| && Balanced(heap, rest + multiset(refs[i..]), stale)
        invariant Safe(heap, zone, owner, stale) && Closed(heap, zone)
        invariant AllLater(h1, heap) && SameOutside(h1, heap, zone)
        invariant GivenBack(h1, heap, gone) && freed == old(freed) + gone
        invariant Total(heap) < Total(h0)
      {
        assert refs[i..] == [refs[i]] + refs[i + 1..];
        assert rest + multiset(refs[i..]) - multiset{refs[i]} == rest + multiset(refs[i + 1..]);
        ghost var was := heap;
        RefInZone(h1, zone, x, refs[i]);
        var ignored;
        ghost var more;
        ignored, more := Drop(refs[i], rest + multiset(refs[i..]), zone, owner, stale);
        GivenBackMore(h1, was, heap, gone, more);
        LaterTransitive(h1, was, heap);
        SameTransitive(h1, was, heap, zone);
        StillClosed(was, heap, zone);
        StillSafe(was, heap, zone, owner, stale);
        gone := gone + more;
        i := i + 1;
      }
      assert rest + multiset(refs[i..]) == rest;
      Unchanged(h1, heap, x);
      GiveBack(heap, rest, stale, x);
      AllDone(h0, h1, heap, zone, x, gone);
      heap := heap[x := Free];
      freed := freed + [x];
      gone := gone + [x];
      status := 1;
    }

    /** json_object_put as a caller sees it: what is freed is exactly what can no longer be
        reached from the references that are left. */
    method Put(x: Ref) returns (status: int)
      requires Valid() && (x > 0 ==> held[x] > 0)
      modifies this
      ensures Valid() && held == old(held) - multiset{x} && AllLater(old(heap), heap)
      ensures exists gone :: freed == old(freed) + gone && GivenBack(old(heap), heap, gone)
      ensures forall y: nat | y < |old(heap)| && old(heap)[y].Node? ::
                heap[y].Free? <==> !Kept(old(heap), held, y)
      ensures status == 1 <==> x > 0 && heap[x].Free?
    {
      hide Balanced, Slots, Closed, Kept, AllLater, GivenBack, Acyclic, Refs;
      ghost var everything := Everything();
      EverythingClosed(heap);
      HeldRoom(heap, held, x);
      ghost var gone;
      status, gone := Drop(x, held, everything, 0, multiset{});
      held := held - multiset{x};
      StaysConsistent(old(heap), heap, old(held), held);
      StillAcyclic(old(heap), heap);
      LaterSize(old(heap), heap);
      GoneIs(old(heap), heap, gone, x);
      forall y: nat | y < |old(heap)| && old(heap)[y].Node? ensures heap[y].Free? <==> !Kept(old(heap), held, y) {
        FreedIsUnreachable(old(heap), heap, held, y);
      }
    }

    // ---------------------------------------------------------- making and sharing

    /** json_object_new with the body of a new object; an array or object is empty at first. */
    method New(body: Body) returns (x: Ref)
      requires Valid() && Refs(body) == []
      modifies this
      ensures Valid() && x == |old(heap)| && heap == old(heap) + [Node(1, body)]
      ensures held == old(held) + multiset{x} && freed == old(freed)
    {
      hide Balanced, Slots, Refs, Ranked;
      x := |heap|;
      Created(heap, held, body);
      CreatedAcyclic(heap, held, body);
      heap := heap + [Node(1, body)];
      held := held + multiset{x};
    }

    /** json_object_get */
    method Get(x: Ref) returns (r: Ref)
      requires Valid() && (x > 0 ==> x < |heap| && heap[x].Node?)
      modifies this
      ensures Valid() && r == x && freed == old(freed)
      ensures x == 0 ==> heap == old(heap) && held == old(held)
      ensures x > 0 ==> heap == old(heap)[x := old(heap)[x].(rc := old(heap)[x].rc + 1)] && held == old(held) + multiset{x}
    {
      hide Balanced, Slots, Refs, Acyclic;
      if x == 0 { return x; }
      Shared(heap, held, x);
      SharedAcyclic(heap, x);
      heap := heap[x := heap[x].(rc := heap[x].rc + 1)];
      held := held + multiset{x};
      r := x;
    }

    // ---------------------------------------------------------- storing

    /** What a slot of x held is dropped while the slot still holds it. */
    method DropSlot(x: Ref, r: Ref, ghost stale: multiset<Ref>, ghost h0: Heap) returns (ghost gone: seq<Ref>)
      requires UnderWay(h0, heap, held, x, stale)
      requires r in Refs(h0[x].body) && stale + multiset{r} <= multiset(Refs(h0[x].body))
      modifies this`heap, this`freed
      ensures UnderWay(h0, heap, held, x, stale + multiset{r})
      ensures AllLater(old(heap), heap) && GivenBack(old(heap), heap, gone) && freed == old(freed) + gone
    {
      hide Balanced, Slots, Closed, AllLater, GivenBack, Refs, Acyclic, Inside;
      ghost var zone := Inside(h0, x);
      SlotGoes(heap, held, stale, r);
      ReadyToDrop(h0, heap, held, x, stale, r);
      var ignored;
      ignored, gone := Drop(r, held + multiset{r}, zone, x, stale + multiset{r});
      assert held + multiset{r} - multiset{r} == held;
      SlotDropped(h0, old(heap), heap, held, x, stale + multiset{r});
    }

    /** The slots of x get their new contents, after what they held has been dropped. */
    method Install(x: Ref, body: Body, val: Ref, ghost stale: multiset<Ref>, ghost h0: Heap, ghost gone: seq<Ref>)
      requires UnderWay(h0, heap, held, x, stale) && GivenBack(h0, heap, gone)
      requires x < |heap| && heap[x].Node? && heap[x] == h0[x]
      requires val > 0 ==> held[val] > 0 && !Reaches(h0, val, x)
      requires forall y: Ref | y > 0 ::
                 multiset(Refs(body))[y] + stale[y] == multiset(Refs(heap[x].body))[y] + multiset{val}[y]
      modifies this`heap, this`held
      ensures Valid() && held == old(held) - multiset{val}
      ensures Stored(h0, heap, x, body) && GivenBack(h0, heap, gone)
    {
      hide Balanced, Slots, Closed, AllLater, GivenBack, Acyclic, Reaches, UnderWay, Refs;
      ghost var h1 := heap;
      heap := heap[x := heap[x].(body := body)];
      Finish(h0, h1, held, x, stale, val, body);
      FreedSame(h0, h1, heap, x, gone);
      held := held - multiset{val};
    }

    /** json_object_object_add_ex: keyIsNew and isConstant are the two options, and the latter
        only decides who owns the key.  0 is success. */
    method ObjectAdd(x: Ref, key: string, val: Ref, keyIsNew: bool) returns (status: int)
      requires Valid() && x < |heap| && heap[x].Node? && heap[x].body.Object?
      requires val > 0 ==> held[val] > 0
      requires val != x ==> !Reaches(heap, val, x)
      requires keyIsNew ==> FindMember(heap[x].body.members, key) == |heap[x].body.members|
      modifies this
      ensures Valid() && (status == 0 <==> val != x)
      ensures status != 0 ==> status == -1 && heap == old(heap) && held == old(held) && freed == old(freed)
      ensures status == 0 ==>
                && held == old(held) - multiset{val}
                && Stored(old(heap), heap, x, Object(SetMember(old(heap)[x].body.members, key, val)))
                && exists gone :: freed == old(freed) + gone && GivenBack(old(heap), heap, gone)
    {
      hide Balanced, Slots, Closed, AllLater, GivenBack, Acyclic, Reaches, UnderWay, Refs;
      var i := if keyIsNew then |heap[x].body.members| else FindMember(heap[x].body.members, key);
      if x == val { return -1; }
      ghost var h0 := heap;
      var members := heap[x].body.members;
      Start(h0, held, x);
      ghost var gone: seq<Ref> := [];
      ghost var stale := multiset{};
      NothingDropped(h0, iset{});
      if i < |members| {
        var existing := members[i].v;
        stale := multiset{existing};
        MemberSlot(members, i);
        gone := DropSlot(x, existing, multiset{}, h0);
        assert multiset{} + multiset{existing} == multiset{existing};
      }
      OwnerSame(h0, heap, held, x, stale);
      members := if i < |members| then members[i := Member(members[i].key, val)] else members + [Member(key, val)];
      forall y: Ref | y > 0
        ensures multiset(Refs(Object(members)))[y] + stale[y] == multiset(Refs(heap[x].body))[y] + multiset{val}[y]
      {
        SetMemberRefs(h0[x].body.members, key, val, y);
      }
      Install(x, Object(members), val, stale, h0, gone);
      status := 0;
    }

    /** json_object_object_del: the value is put while its entry is still there. */
    method ObjectDel(x: Ref, key: string)
      requires Valid() && x < |heap| && heap[x].Node? && heap[x].body.Object?
      modifies this
      ensures Valid() && held == old(held)
      ensures Stored(old(heap), heap, x, Object(DeleteMember(old(heap)[x].body.members, key)))
      ensures exists gone :: freed == old(freed) + gone && GivenBack(old(heap), heap, gone)
    {
      hide Balanced, Slots, Closed, AllLater, GivenBack, Acyclic, Reaches, UnderWay, Refs;
      ghost var h0 := heap;
      var members := heap[x].body.members;
      var i := FindMember(members, key);
      NothingDropped(h0, iset{});
      if i == |members| {
        NothingStored(h0, x);
        assert freed == old(freed) + [];
        return;
      }
      Start(h0, held, x);
      MemberSlot(members, i);
      ghost var gone := DropSlot(x, members[i].v, multiset{}, h0);
      ghost var stale := multiset{} + multiset{members[i].v};
      OwnerSame(h0, heap, held, x, stale);
      forall y: Ref | y > 0
        ensures multiset(Refs(Object(members[..i] + members[i + 1..])))[y] + stale[y]
                == multiset(Refs(heap[x].body))[y] + multiset{0}[y]
      {
        DeleteMemberRefs(members, i, y);
      }
      ghost var had := held;
      Install(x, Object(members[..i] + members[i + 1..]), 0, stale, h0, gone);
      SameHeld(heap, had);
      held := had;
    }

    /** json_object_array_put_idx.  After deletions the C array has stale pointers behind its
        end, so then the index may be at most the length. */
    method ArrayPutIdx(x: Ref, idx: nat, val: Ref)
      requires Valid() && x < |heap| && heap[x].Node? && heap[x].body.Array?
      requires heap[x].body.deleted ==> idx <= |heap[x].body.items|
      requires val > 0 ==> held[val] > 0 && !Reaches(heap, val, x)
      modifies this
      ensures Valid() && held == old(held) - multiset{val}
      ensures Stored(old(heap), heap, x, old(heap)[x].body.(items := PutAt(old(heap)[x].body.items, idx, val)))
      ensures exists gone :: freed == old(freed) + gone && GivenBack(old(heap), heap, gone)
    {
      hide Balanced, Slots, Closed, AllLater, GivenBack, Acyclic, Reaches, UnderWay, Refs;
      ghost var h0 := heap;
      var items, deleted := heap[x].body.items, heap[x].body.deleted;
      NothingDropped(h0, iset{});
      Start(h0, held, x);
      ghost var gone: seq<Ref>, stale := [], multiset{};
      if idx < |items| && items[idx] != 0 {
        ItemSlot(items, deleted, idx);
        gone := DropSlot(x, items[idx], multiset{}, h0);
        stale := multiset{} + multiset{items[idx]};
      }
      OwnerSame(h0, heap, held, x, stale);
      var longer := if idx < |items| then items else items + seq(idx + 1 - |items|, _ => 0);
      assert longer[idx := val] == PutAt(items, idx, val);
      forall y: Ref | y > 0
        ensures multiset(Refs(Array(longer[idx := val], deleted)))[y] + stale[y]
                == multiset(Refs(heap[x].body))[y] + multiset{val}[y]
      {
        PutAtRefs(items, deleted, idx, val, y);
      }
      Install(x, Array(longer[idx := val], deleted), val, stale, h0, gone);
    }

    /** json_object_array_add */
    method ArrayAdd(x: Ref, val: Ref)
      requires Valid() && x < |heap| && heap[x].Node? && heap[x].body.Array?
      requires val > 0 ==> held[val] > 0 && !Reaches(heap, val, x)
      modifies this
      ensures Valid() && held == old(held) - multiset{val}
      ensures Stored(old(heap), heap, x, old(heap)[x].body.(items := old(heap)[x].body.items + [val]))
      ensures exists gone :: freed == old(freed) + gone && GivenBack(old(heap), heap, gone)
    {
      hide Consistent, Acyclic, Reaches, GivenBack;
      ghost var items := heap[x].body.items;
      ArrayPutIdx(x, |heap[x].body.items|, val);
      assert PutAt(items, |items|, val) == items + [val];
    }

    /** json_object_array_del_idx: the slots are emptied first, then closed up. */
    method ArrayDelIdx(x: Ref, idx: nat, count: nat) returns (status: int)
      requires Valid() && x < |heap| && heap[x].Node? && heap[x].body.Array?
      modifies this
      ensures Valid() && held == old(held)
      ensures status == if idx >= |old(heap)[x].body.items| || idx + count > |old(heap)[x].body.items| then -1 else 0
      ensures status != 0 ==> heap == old(heap) && freed == old(freed)
      ensures status == 0 ==>
                && Stored(old(heap), heap, x, CutOut(old(heap)[x].body, idx, count))
                && exists gone :: freed == old(freed) + gone && GivenBack(old(heap), heap, gone)
    {
      hide Balanced, Slots, Closed, AllLater, GivenBack, Acyclic, Reaches, UnderWay, Refs;
      ghost var h0 := heap;
      var items, deleted, stop := heap[x].body.items, heap[x].body.deleted, idx + count;
      if idx >= |items| || stop > |items| { return -1; }
      Start(h0, held, x);
      ghost var gone := EmptySlots(x, idx, stop, h0);
      OwnerSame(h0, heap, held, x, multiset(items[idx..stop]));
      var now := deleted || count > 0;
      forall y: Ref | y > 0
        ensures multiset(Refs(Array(items[..idx] + items[stop..], now)))[y] + multiset(items[idx..stop])[y]
                == multiset(Refs(heap[x].body))[y] + multiset{0}[y]
      {
        CutOutRefs(items, deleted, now, idx, stop, y);
      }
      ghost var had := held;
      Install(x, Array(items[..idx] + items[stop..], now), 0, multiset(items[idx..stop]), h0, gone);
      SameHeld(heap, had);
      held := had;
      status := 0;
    }

    /** The loop of array_list_del_idx. */
    method EmptySlots(x: Ref, idx: nat, stop: nat, ghost h0: Heap) returns (ghost gone: seq<Ref>)
      requires h0 == heap && UnderWay(h0, heap, held, x, multiset{})
      requires x < |heap| && heap[x].body.Array? && idx <= stop <= |heap[x].body.items|
      modifies this`heap, this`freed
      ensures UnderWay(h0, heap, held, x, multiset(h0[x].body.items[idx..stop]))
      ensures GivenBack(h0, heap, gone) && freed == old(freed) + gone
    {
      hide Balanced, Slots, Closed, AllLater, GivenBack, Acyclic, Reaches, UnderWay, Refs;
      NothingDropped(h0, iset{});
      gone := [];
      OwnerSame(h0, heap, held, x, multiset{});
      var items := heap[x].body.items;
      var i := idx;
      assert multiset(items[idx..idx]) == multiset{};
      while i < stop
        invariant idx <= i <= stop && UnderWay(h0, heap, held, x, multiset(items[idx..i]))
        invariant AllLater(h0, heap) && GivenBack(h0, heap, gone) && freed == old(freed) + gone && held == old(held)
      {
        OneMoreItem(items, h0[x].body.deleted, idx, i);
        ghost var was := heap;
        ghost var more: seq<Ref> := [];
        NothingDropped(was, iset{});
        if items[i] != 0 {
          more := DropSlot(x, items[i], multiset(items[idx..i]), h0);
        } else {
          NullStale(h0, heap, held, x, multiset(items[idx..i]));
        }
        GivenBackMore(h0, was, heap, gone, more);
        LaterTransitive(h0, was, heap);
        gone := gone + more;
        i := i + 1;
      }
    }
  }

  /** While slots of x are being emptied: some of them are stale, x itself is as it was. */
  ghost predicate UnderWay(h0: Heap, h: Heap, held: multiset<Ref>, x: Ref, stale: multiset<Ref>) {
    && x < |h0| && h0[x].Node? && h0[x].rc > 0 && h0 != [] && h0[0].Free? && Acyclic(h0)
    && AllLater(h0, h) && h[x] == h0[x]
    && Balanced(h, held, stale) && Closed(h, Inside(h0, x))
    && (forall r | r in Refs(h0[x].body) && r > 0 :: r in Inside(h0, x))
    && (forall y | 0 <= y < |h0| && h0[y].Node? :: h0[y].rc > 0)
  }

  lemma ReadyToDrop(h0: Heap, h: Heap, held: multiset<Ref>, x: Ref, stale: multiset<Ref>, r: Ref)
    requires UnderWay(h0, h, held, x, stale)
    requires r in Refs(h0[x].body) && stale + multiset{r} <= multiset(Refs(h0[x].body))
    ensures Safe(h, Inside(h0, x), x, stale + multiset{r}) && Closed(h, Inside(h0, x))
    ensures r > 0 ==> r in Inside(h0, x)
    ensures |h| == |h0|
  {
    hide Reaches, Closed, Acyclic, Balanced, Refs;
  }

  lemma SlotDropped(h0: Heap, was: Heap, h: Heap, held: multiset<Ref>, x: Ref, stale: multiset<Ref>)
    requires exists s :: UnderWay(h0, was, held, x, s)
    requires AllLater(was, h) && SameOutside(was, h, Inside(h0, x)) && Balanced(h, held, stale)
    ensures UnderWay(h0, h, held, x, stale)
  {
    hide Reaches, Closed, Acyclic, Balanced, Refs;
    LaterTransitive(h0, was, h);
    StillClosed(was, h, Inside(h0, x));
  }

  predicate Anything(x: Ref) { true }

  ghost function Everything(): iset<Ref> { iset y: Ref | Anything(y) }

  lemma EverythingClosed(h: Heap)
    ensures Closed(h, Everything()) && forall y: Ref :: y in Everything()
  {
    hide Refs;
  }

  lemma HeldRoom(h: Heap, held: multiset<Ref>, x: Ref)
    requires Consistent(h, held) && (x > 0 ==> held[x] > 0)
    ensures x < |h| && (x > 0 ==> h[x].Node?)
  {
    hide Balanced;
    if x > 0 { HeldIsLive(h, held, x); }
  }

  lemma LaterSize(h: Heap, g: Heap)
    requires AllLater(h, g)
    ensures |g| == |h|
  {
  }

  lemma GoneIs(h: Heap, g: Heap, gone: seq<Ref>, x: Ref)
    requires GivenBack(h, g, gone) && h != [] && h[0].Free? && x < |h| && (x > 0 ==> h[x].Node?)
    ensures x in gone <==> x > 0 && g[x].Free?
  {
  }

  lemma StaysConsistent(h: Heap, g: Heap, before: multiset<Ref>, held: multiset<Ref>)
    requires Consistent(h, before) && AllLater(h, g) && Balanced(g, held, multiset{})
    ensures Consistent(g, held)
  {
    hide Balanced;
    assert Later(h[0], g[0]);
    forall x | 0 <= x < |g| && g[x].Node? ensures g[x].rc > 0 {
      assert Later(h[x], g[x]);
    }
  }

  lemma CreatedAcyclic(h: Heap, held: multiset<Ref>, body: Body)
    requires Consistent(h, held) && Acyclic(h) && Refs(body) == []
    ensures Acyclic(h + [Node(1, body)])
  {
    hide Consistent, Refs;
    var g := h + [Node(1, body)];
    var rank :| Ranked(h, rank);
    var more := rank + [0];
    forall a, b | 0 <= a < |g| && 0 <= b < |g| && Edge(g, a, b) ensures more[a] > more[b] {
      assert Edge(h, a, b);
      EdgeIsLive(h, held, a, b);
    }
    assert Ranked(g, more);
  }

  lemma SharedAcyclic(h: Heap, x: Ref)
    requires Acyclic(h) && x < |h| && h[x].Node?
    ensures Acyclic(h[x := h[x].(rc := h[x].rc + 1)])
  {
    hide Refs, Acyclic;
    EdgeRemoved(h, h[x := h[x].(rc := h[x].rc + 1)]);
  }

  lemma NothingDropped(h: Heap, zone: iset<Ref>)
    ensures AllLater(h, h) && SameOutside(h, h, zone) && GivenBack(h, h, [])
  {
  }

  lemma NullOwed(h: Heap, owed: multiset<Ref>, stale: multiset<Ref>)
    requires Balanced(h, owed, stale)
    ensures Balanced(h, owed - multiset{0}, stale)
  {
  }

  lemma OneDropped(h: Heap, zone: iset<Ref>, x: Ref)
    requires x < |h| && h[x].Node? && h[x].rc > 1 && x in zone
    ensures var g := h[x := h[x].(rc := h[x].rc - 1)];
            AllLater(h, g) && SameOutside(h, g, zone) && GivenBack(h, g, [])
  {
  }

  lemma LastDropped(h: Heap, zone: iset<Ref>, owner: Ref, stale: multiset<Ref>, x: Ref)
    requires x < |h| && h[x].Node? && x in zone && Safe(h, zone, owner, stale) && Closed(h, zone)
    ensures var g := h[x := h[x].(rc := 0)];
            Safe(g, zone, owner, stale) && Closed(g, zone)
  {
    hide Refs;
    var g := h[x := h[x].(rc := 0)];
    forall y, r | y in zone && y < |g| && g[y].Node? && r in Refs(g[y].body) ensures r == 0 || r in zone {
      assert g[y].body == h[y].body;
    }
  }

  lemma RefInZone(h: Heap, zone: iset<Ref>, x: Ref, r: Ref)
    requires Closed(h, zone) && x in zone && x < |h| && h[x].Node? && r in Refs(h[x].body)
    ensures r == 0 || r in zone
  {
  }

  lemma StillSafe(h: Heap, g: Heap, zone: iset<Ref>, owner: Ref, stale: multiset<Ref>)
    requires Safe(h, zone, owner, stale) && SameOutside(h, g, zone)
    ensures Safe(g, zone, owner, stale)
  {
  }

  lemma Unchanged(h: Heap, g: Heap, x: Ref)
    requires AllLater(h, g) && x < |h| && h[x].Node? && h[x].rc == 0
    ensures x < |g| && g[x] == h[x]
  {
    assert Later(h[x], g[x]);
  }

  lemma AllDone(h0: Heap, h1: Heap, h: Heap, zone: iset<Ref>, x: Ref, gone: seq<Ref>)
    requires x < |h0| && h0[x].Node? && h0[x].rc == 1 && h1 == h0[x := h0[x].(rc := 0)] && x in zone
    requires AllLater(h1, h) && SameOutside(h1, h, zone) && GivenBack(h1, h, gone)
    ensures AllLater(h0, h[x := Free]) && SameOutside(h0, h[x := Free], zone)
    ensures GivenBack(h0, h[x := Free], gone + [x])
  {
    hide Refs;
    Unchanged(h1, h, x);
    var g := h[x := Free];
    forall y | 0 <= y < |h0| ensures Later(h0[y], g[y]) {
      assert Later(h1[y], h[y]);
    }
    assert x !in gone;
  }

  // ------------------------------------------------------------ the slots of objects and arrays

  function FindMember(members: seq<Member>, key: string): (i: nat)
    ensures i <= |members| && (i < |members| ==> members[i].key == key)
    ensures forall j | 0 <= j < i :: members[j].key != key
  {
    if members == [] || members[0].key == key then 0 else 1 + FindMember(members[1..], key)
  }

  /** The members after a value has been stored for a key. */
  function SetMember(members: seq<Member>, key: string, val: Ref): seq<Member> {
    var i := FindMember(members, key);
    if i < |members| then members[i := Member(key, val)] else members + [Member(key, val)]
  }

  /** A key that is there keeps its place, a new one goes to the end. */
  lemma MemberSet(members: seq<Member>, key: string, val: Ref, i: nat)
    requires i <= |members| && (forall j | 0 <= j < i :: members[j].key != key) && (i < |members| ==> members[i].key == key)
    ensures SetMember(members, key, val)
            == if i < |members| then members[..i] + [Member(key, val)] + members[i + 1..] else members + [Member(key, val)]
    ensures DeleteMember(members, key) == if i < |members| then members[..i] + members[i + 1..] else members
  {
    assert FindMember(members, key) == i;
  }

  /** The heap after the slots of x have been rewritten: other objects may have been freed. */
  ghost predicate Stored(h0: Heap, h: Heap, x: Ref, body: Body) {
    && x < |h0| && |h| == |h0| && h0[x].Node? && h[x] == h0[x].(body := body)
    && forall y | 0 <= y < |h0| && y != x :: Later(h0[y], h[y])
  }

  lemma Start(h: Heap, held: multiset<Ref>, x: Ref)
    requires Consistent(h, held) && Acyclic(h) && x < |h| && h[x].Node?
    ensures UnderWay(h, h, held, x, multiset{})
  {
    hide Balanced, Slots, Refs, Acyclic, Inside;
    InsideIsClosed(h, held, x);
    NothingDropped(h, iset{});
  }

  lemma OwnerSame(h0: Heap, h: Heap, held: multiset<Ref>, x: Ref, stale: multiset<Ref>)
    requires UnderWay(h0, h, held, x, stale)
    ensures x < |h| == |h0| && h[x] == h0[x] && h[x].Node?
  {
  }

  /** The slots of x get their new contents, val being the only reference that comes. */
  lemma Finish(h0: Heap, h: Heap, held: multiset<Ref>, x: Ref, stale: multiset<Ref>, val: Ref, body: Body)
    requires UnderWay(h0, h, held, x, stale) && x < |h| && h[x].Node?
    requires val > 0 ==> held[val] > 0 && !Reaches(h0, val, x)
    requires forall y: Ref | y > 0 ::
               multiset(Refs(body))[y] + stale[y] == multiset(Refs(h[x].body))[y] + multiset{val}[y]
    ensures var h1 := h[x := h[x].(body := body)];
            Consistent(h1, held - multiset{val}) && Acyclic(h1) && Stored(h0, h1, x, body)
  {
    hide Slots, Refs, Closed, Inside, Acyclic, Reaches, Balanced;
    var h1 := h[x := h[x].(body := body)];
    BodyChanged(h, held, stale, multiset{val}, x, body);
    assert Later(h0[0], h[0]);
    forall y | 0 <= y < |h1| && h1[y].Node? ensures h1[y].rc > 0 { assert Later(h0[y], h[y]); }
    StillAcyclic(h0, h);
    forall a, b | Edge(h1, a, b) ensures Edge(h, a, b) || (a == x && b == val) {
      if a == x {
        assert b in multiset(Refs(body));
        assert b == val || b in multiset(Refs(h[x].body));
      }
    }
    if val == 0 {
      forall a, b | Edge(h1, a, b) ensures Edge(h, a, b) { }
      EdgeRemoved(h, h1);
    } else {
      if Reaches(h, val, x) { LaterReaches(h0, h, val, x); }
      EdgeAdded(h, h1, x, val);
    }
  }

  lemma FreedSame(h0: Heap, h1: Heap, h: Heap, x: Ref, gone: seq<Ref>)
    requires GivenBack(h0, h1, gone) && x < |h| == |h1| && h1[x].Node? && h[x].Node?
    requires forall y | 0 <= y < |h| && y != x :: h[y] == h1[y]
    ensures GivenBack(h0, h, gone)
  {
  }

  lemma MemberSlot(members: seq<Member>, i: nat)
    requires i < |members|
    ensures members[i].v in Refs(Object(members))
    ensures multiset{} + multiset{members[i].v} <= multiset(Refs(Object(members)))
  {
    assert Refs(Object(members))[i] == members[i].v;
  }

  lemma Replaced(s: seq<Ref>, i: nat, v: Ref, y: Ref)
    requires i < |s|
    ensures multiset(s[i := v])[y] + multiset{s[i]}[y] == multiset(s)[y] + multiset{v}[y]
  {
  }

  lemma SetMemberRefs(members: seq<Member>, key: string, val: Ref, y: Ref)
    ensures var i := FindMember(members, key);
            multiset(Refs(Object(SetMember(members, key, val))))[y]
            + (if i < |members| then multiset{members[i].v} else multiset{})[y]
            == multiset(Refs(Object(members)))[y] + multiset{val}[y]
  {
    var i := FindMember(members, key);
    var r, r1 := Refs(Object(members)), Refs(Object(SetMember(members, key, val)));
    if i < |members| {
      assert r1 == r[i := val];
      Replaced(r, i, val, y);
    } else {
      assert r1 == r + [val];
    }
  }

  /** The members without a key. */
  function DeleteMember(members: seq<Member>, key: string): seq<Member> {
    var i := FindMember(members, key);
    if i < |members| then members[..i] + members[i + 1..] else members
  }

  lemma DeleteMemberRefs(members: seq<Member>, i: nat, y: Ref)
    requires i < |members| && y > 0
    ensures multiset(Refs(Object(members[..i] + members[i + 1..])))[y] + (multiset{} + multiset{members[i].v})[y]
            == multiset(Refs(Object(members)))[y] + multiset{0}[y]
  {
    var r := Refs(Object(members));
    assert Refs(Object(members[..i] + members[i + 1..])) == r[..i] + r[i + 1..];
    assert r == r[..i] + [r[i]] + r[i + 1..];
  }

  /** The items after a reference has been put at an index; a gap is filled with NULL. */
  function PutAt(items: seq<Ref>, idx: nat, val: Ref): (r: seq<Ref>)
    ensures |r| == if idx < |items| then |items| else idx + 1
    ensures forall i | 0 <= i < |r| :: r[i] == if i == idx then val else if i < |items| then items[i] else 0
  {
    if idx < |items| then items[idx := val] else items + seq(idx - |items|, _ => 0) + [val]
  }

  lemma ItemSlot(items: seq<Ref>, deleted: bool, i: nat)
    requires i < |items|
    ensures items[i] in Refs(Array(items, deleted))
    ensures multiset{} + multiset{items[i]} <= multiset(Refs(Array(items, deleted)))
  {
  }

  lemma {:induction false} NoRefs(n: nat, y: Ref)
    requires y > 0
    ensures multiset(seq(n, _ => 0))[y] == 0
  {
    if n > 0 {
      NoRefs(n - 1, y);
      var most: seq<Ref> := seq(n - 1, _ => 0);
      assert seq(n, _ => 0) == most + [0];
    }
  }

  lemma PutAtRefs(items: seq<Ref>, deleted: bool, idx: nat, val: Ref, y: Ref)
    requires y > 0
    ensures multiset(Refs(Array(PutAt(items, idx, val), deleted)))[y]
            + (if idx < |items| && items[idx] != 0 then multiset{} + multiset{items[idx]} else multiset{})[y]
            == multiset(Refs(Array(items, deleted)))[y] + multiset{val}[y]
  {
    if idx < |items| {
      Replaced(items, idx, val, y);
    } else {
      NoRefs(idx - |items|, y);
    }
  }

  /** The array without count items from idx on. */
  function CutOut(body: Body, idx: nat, count: nat): Body
    requires body.Array? && idx + count <= |body.items|
  {
    Array(body.items[..idx] + body.items[idx + count..], body.deleted || count > 0)
  }

  lemma CutOutRefs(items: seq<Ref>, deleted: bool, now: bool, idx: nat, stop: nat, y: Ref)
    requires y > 0 && idx <= stop <= |items|
    ensures multiset(Refs(Array(items[..idx] + items[stop..], now)))[y] + multiset(items[idx..stop])[y]
            == multiset(Refs(Array(items, deleted)))[y] + multiset{0}[y]
  {
    assert items == items[..idx] + items[idx..stop] + items[stop..];
  }

  lemma OneMoreItem(items: seq<Ref>, deleted: bool, idx: nat, i: nat)
    requires idx <= i < |items|
    ensures items[i] in Refs(Array(items, deleted))
    ensures multiset(items[idx..i]) + multiset{items[i]} == multiset(items[idx..i + 1])
    ensures multiset(items[idx..i + 1]) <= multiset(Refs(Array(items, deleted)))
  {
    assert items[idx..i + 1] == items[idx..i] + [items[i]];
    assert items == items[..idx] + items[idx..i + 1] + items[i + 1..];
  }

  lemma NullStale(h0: Heap, h: Heap, held: multiset<Ref>, x: Ref, stale: multiset<Ref>)
    requires UnderWay(h0, h, held, x, stale)
    ensures UnderWay(h0, h, held, x, stale + multiset{0})
  {
    hide Closed, Acyclic, Refs, Slots;
  }

  lemma NothingStored(h: Heap, x: Ref)
    requires x < |h| && h[x].Node?
    ensures Stored(h, h, x, h[x].body)
  {
  }

  lemma SameHeld(h: Heap, held: multiset<Ref>)
    requires Consistent(h, held - multiset{0})
    ensures Consistent(h, held)
  {
    hide Slots;
    forall y: Ref | y > 0 ensures Rc(h, y) + multiset{}[y] == held[y] + Slots(h)[y] {
      assert Rc(h, y) + multiset{}[y] == (held - multiset{0})[y] + Slots(h)[y];
    }
  }
}
