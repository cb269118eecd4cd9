/** linkhash.c on the fields of a struct lh_table. */
module LinkHashTable {
  import opened LinkHash
  import opened LinkHashMap

  class Table<K(==)> {
    const hash: K -> nat
    /** Is there a free_fn? */
    const frees: bool
    var size: nat
    var count: nat
    var head: int
    var tail: int
    var table: array<Slot<K>>
    /** The entries free_fn has been called with. */
    var freed: seq<Item<K>>
    /** The positions of the live slots in the order of the list. */
    ghost var order: seq<nat>

    ghost predicate Valid()
      reads this, table
    {
      && size == table.Length > 0
      && count == |order| && Room(count, size)
      && Linked(table[..], order, head, tail)
      && Probed(table[..], hash)
    }

    /** The entries, the oldest first. */
    ghost function Contents(): (r: seq<Item<K>>)
      requires Valid()
      reads this, table
      ensures |r| == count
    {
      Items(table[..], order)
    }

    /** lh_table_new */
    constructor (size: nat, hash: K -> nat, frees: bool)
      requires size > 0
      ensures Valid() && Contents() == [] && fresh(table)
      ensures this.size == size && this.hash == hash && this.frees == frees && freed == []
    {
      this.size, this.hash, this.frees := size, hash, frees;
      count, head, tail, freed, order := 0, -1, -1, [], [];
      table := new Slot<K>[size](_ => Slot(Empty, false, 0, -1, -1));
    }

    /** lh_table_length */
    method Length() returns (n: nat)
      requires Valid()
      ensures n == |Contents()|
    {
      n := count;
    }

    /** The probe loop of lh_table_insert_w_hash: it ends at a slot that is not live. */
    method FreeSlot(key: K, h: nat) returns (n: nat)
      requires Valid() && count < size && h == hash(key)
      ensures n < size && !table[n].k.Live?
      ensures forall m | 0 <= m < size && InRun(Home(hash, key, size), n, m) :: table[..][m].k.Live?
    {
      ghost var f := SomeSlotIsFree(table[..], order);
      n := h % size;
      ghost var home := n;
      while true
        invariant n < size && forall m | 0 <= m < size && InRun(home, n, m) :: table[..][m].k.Live?
        decreases Distance(n, f, size)
      {
        if table[n].k == Empty || table[n].k == Freed { break; }
        StepCloser(n, f, size);
        forall m | 0 <= m < size ensures InRun(home, Step(n, size), m) ==> table[..][m].k.Live? {
          RunGrows(home, n, m, size);
          RunGrows(home, n, f, size);
        }
        n := n + 1;
        if n == size { n := 0; }
      }
    }

    /** lh_table_insert_w_hash */
    method InsertWHash(key: K, v: Pointer, h: nat, isConst: bool)
      requires Valid() && h == hash(key)
      modifies this, table
      ensures Valid() && (table == old(table) || fresh(table)) && freed == old(freed)
      ensures Contents() == old(Contents()) + [Item(key, v, isConst)]
      ensures size == if Full(old(count), old(size)) then 2 * old(size) else old(size)
      decreases count, 1
    {
      if 100 * count >= 66 * size {
        DoubledHasRoom(count, size);
        Resize(size * 2);
      }
      PutNew(key, v, h, isConst);
    }

    /** The rest of lh_table_insert_w_hash, the table having room. */
    method PutNew(key: K, v: Pointer, h: nat, isConst: bool)
      requires Valid() && h == hash(key) && !Full(count, size)
      modifies this`count, this`head, this`tail, this`order, table
      ensures Valid() && Contents() == old(Contents()) + [Item(key, v, isConst)]
    {
      hide Linked, Probed, Items, Put;
      var n := FreeSlot(key, h);
      ghost var s := table[..];
      HeadTail(s, order, head, tail);
      PutKeeps(s, order, head, tail, n, key, v, isConst);
      PutProbed(s, hash, n, key, v, isConst, tail);
      Place(n, key, v, isConst);
    }

    /** The second half of lh_table_insert_w_hash, the slot being found. */
    method Place(n: nat, key: K, v: Pointer, isConst: bool)
      requires n < table.Length && tail < table.Length && tail != n && head < table.Length
      requires (head == -1 <==> tail == -1) && -1 <= tail
      modifies this`count, this`head, this`tail, this`order, table
      ensures table[..] == Put(old(table[..]), n, key, v, isConst, old(tail))
      ensures count == old(count) + 1 && tail == n && head == (if old(head) == -1 then n else old(head))
      ensures order == old(order) + [n]
    {
      table[n] := table[n].(k := Live(key));
      table[n] := table[n].(isConst := isConst);
      table[n] := table[n].(v := v);
      count := count + 1;
      if head == -1 {
        head, tail := n, n;
        table[n] := table[n].(next := -1, prev := -1);
      } else {
        table[tail] := table[tail].(next := n);
        table[n] := table[n].(prev := tail);
        table[n] := table[n].(next := -1);
        tail := n;
      }
      order := order + [n];
    }

    /** lh_table_resize.  The table is consistent afterwards exactly if the new size has room
        for the entries: if not, an insertion into the new table resizes that one again, and
        its size is not the one that is stored. */
    method Resize(newSize: nat)
      requires Valid() && newSize > 0
      modifies this
      ensures fresh(table) && size == newSize && count == old(count) && freed == old(freed)
      ensures Valid() <==> Room(old(count), newSize)
      ensures Valid() ==> Contents() == old(Contents())
      decreases count, 0
    {
      hide Linked, Probed, Items, Full, LinkOk;
      var newT := new Table(newSize, hash, false);
      ghost var i := 0;
      var ent := head;
      ghost var all := Contents();
      HeadIs(table[..], order, head, tail);
      while ent != -1
        invariant i <= |order| && ent == At(order, i)
        invariant unchanged(this) && unchanged(table) && all == Contents() && Valid()
        invariant fresh(newT) && newT.Valid() && fresh(newT.table) && newT.hash == hash
        invariant newT.Contents() == all[..i] && newT.size >= newSize
        invariant newT.size == newSize <==> Room(i, newSize)
        decreases |order| - i
      {
        EntryIs(table[..], order, head, tail, i);
        RoomShrinks(i, newSize, newT.size);
        var h := hash(table[ent].k.key);
        newT.InsertWHash(table[ent].k.key, table[ent].v, h, table[ent].isConst);
        assert all[..i + 1] == all[..i] + [all[i]];
        ent := table[ent].next;
        i := i + 1;
      }
      assert i == |order| && all[..i] == all;
      table := newT.table;
      size := newSize;
      head := newT.head;
      tail := newT.tail;
      order := newT.order;
    }

    /** lh_table_lookup_entry_w_hash */
    method LookupEntryWHash(key: K, h: nat) returns (n: int)
      requires Valid() && h == hash(key)
      ensures -1 <= n < size && (n != -1 ==> table[n].k == Live(key))
      ensures n == -1 <==> forall i | 0 <= i < |Contents()| :: Contents()[i].key != key
    {
      hide Linked, Probed, Items, Passed, Room;
      n := h % size;
      ghost var home := n;
      var steps := 0;
      PassedNone(home, size);
      while steps < size
        invariant steps <= size && n == Around(home, steps, size)
        invariant forall m | 0 <= m < size && Passed(home, steps, size, m) :: table[..][m].k != Live(key)
      {
        if table[n].k == Empty {
          EmptyEnds(table[..], hash, key, steps);
          Absent(table[..], order, head, tail, key);
          return -1;
        }
        if table[n].k != Freed && table[n].k.key == key {
          ghost var i := Present(table[..], order, head, tail, n);
          assert Contents()[i].key == key;
          return;
        }
        PassedOneMore(home, steps, size);
        n := n + 1;
        if n == size { n := 0; }
        steps := steps + 1;
      }
      PassedAll(home, size);
      Absent(table[..], order, head, tail, key);
      n := -1;
    }

    /** lh_table_lookup_entry, and what it means when no key is there twice. */
    method LookupEntry(key: K) returns (n: int)
      requires Valid() && UniqueKeys(Contents())
      ensures n == At(order, FindItem(Contents(), key))
      ensures -1 <= n < size && (n == -1 <==> FindItem(Contents(), key) == |Contents()|)
    {
      hide Linked, Probed, Items, Room;
      n := LookupEntryWHash(key, hash(key));
      if n != -1 {
        ghost var i := Present(table[..], order, head, tail, n);
        FindUnique(Contents(), i);
      }
    }

    /** lh_table_lookup_ex; v is 0, that is NULL, if there is no such key. */
    method LookupEx(key: K) returns (found: bool, v: Pointer)
      requires Valid() && UniqueKeys(Contents())
      ensures (found, v) == Lookup(Contents(), key)
    {
      hide Linked, Probed, Items, Room;
      var n := LookupEntry(key);
      if n != -1 {
        EntryIs(table[..], order, head, tail, FindItem(Contents(), key));
        return true, table[n].v;
      }
      return false, 0;
    }

    /** lh_table_delete_entry; n is the position of the entry that the pointer gives, i its
        place in the list. */
    method DeleteEntry(n: int) returns (status: int, ghost i: nat)
      requires Valid() && n < size
      modifies this`count, this`head, this`tail, this`order, this`freed, table
      ensures Valid() && table == old(table)
      ensures status == if n < 0 then -2 else if !old(table[n].k).Live? then -1 else 0
      ensures status != 0 ==> Contents() == old(Contents()) && freed == old(freed) && order == old(order)
      ensures status == 0 ==>
                && i < |old(order)| && old(order)[i] == n
                && Contents() == WithoutAt(old(Contents()), i)
                && freed == old(freed) + if frees then [old(Contents())[i]] else []
    {
      i := 0;
      if n < 0 { return -2, i; }
      if table[n].k == Empty || table[n].k == Freed { return -1, i; }
      hide Linked, Probed, Items, Room, WithoutAt;
      i := Present(table[..], order, head, tail, n);
      Remove(n, i);
      status := 0;
    }

    /** The rest of lh_table_delete_entry for an entry that is there, the i-th of the list. */
    method Remove(n: nat, ghost i: nat)
      requires Valid() && i < |order| && order[i] == n
      modifies this`count, this`head, this`tail, this`order, this`freed, table
      ensures Valid() && table == old(table)
      ensures Contents() == WithoutAt(old(Contents()), i)
      ensures freed == old(freed) + if frees then [old(Contents())[i]] else []
    {
      hide Linked, Probed, Items, Room, Unlinked, CanTakeOut, WithoutAt;
      ghost var s := table[..];
      LessRoom(count, size);
      UnlinkAll(s, hash, order, head, tail, i);
      TakeOut(n);
      order := WithoutAt(order, i);
    }

    /** What Remove does to the slots. */
    method TakeOut(n: nat)
      requires n < table.Length && table[n].k.Live? && count > 0 && CanTakeOut(table[..], head, tail, n)
      modifies this`count, this`head, this`tail, this`freed, table
      ensures table[..] == Unlinked(old(table[..]), n) && count == old(count) - 1
      ensures head == if old(head) == n then old(table[n].next) else old(head)
      ensures tail == if old(tail) == n then old(table[n].prev) else old(tail)
      ensures freed == old(freed) + if frees then [ItemOf(old(table[..])[n])] else []
    {
      hide Unlinked;
      count := count - 1;
      if frees { freed := freed + [Item(table[n].k.key, table[n].v, table[n].isConst)]; }
      ghost var s := table[..];
      table[n] := table[n].(v := 0);
      table[n] := table[n].(k := Freed);
      assert table[..] == s[n := s[n].(v := 0, k := Freed)];
      Relink(n);
      ghost var s1 := table[..];
      table[n] := table[n].(next := -1, prev := -1);
      assert table[..] == s1[n := s1[n].(next := -1, prev := -1)];
      UnlinkedInSteps(s, n);
    }

    /** The four cases of taking a slot out of the list. */
    method Relink(n: nat)
      requires n < table.Length && CanTakeOut(table[..], head, tail, n)
      modifies this`head, this`tail, table
      ensures table[..] == Bridged(old(table[..]), n)
      ensures head == if old(head) == n then old(table[n].next) else old(head)
      ensures tail == if old(tail) == n then old(table[n].prev) else old(tail)
    {
      if tail == n && head == n {
        head, tail := -1, -1;
      } else if head == n {
        SetPrev(table[head].next, -1);
        head := table[head].next;
      } else if tail == n {
        SetNext(table[tail].prev, -1);
        tail := table[tail].prev;
      } else {
        SetNext(table[n].prev, table[n].next);
        SetPrev(table[n].next, table[n].prev);
      }
    }

    method SetNext(n: nat, next: int)
      requires n < table.Length
      modifies table
      ensures table[..] == old(table[..])[n := old(table[..])[n].(next := next)]
    {
      table[n] := table[n].(next := next);
    }

    method SetPrev(n: nat, prev: int)
      requires n < table.Length
      modifies table
      ensures table[..] == old(table[..])[n := old(table[..])[n].(prev := prev)]
    {
      table[n] := table[n].(prev := prev);
    }

    /** lh_table_delete */
    method Delete(key: K) returns (status: int)
      requires Valid() && UniqueKeys(Contents())
      modifies this`count, this`head, this`tail, this`order, this`freed, table
      ensures Valid() && table == old(table)
      ensures var i := FindItem(old(Contents()), key);
              && (status == 0 <==> i < |old(Contents())|)
              && (status != 0 ==> status == -1)
              && Contents() == RemoveKey(old(Contents()), key)
              && freed == old(freed) + if frees && status == 0 then [old(Contents())[i]] else []
    {
      hide Linked, Probed, Items, Room;
      var e := LookupEntry(key);
      if e == -1 { return -1; }
      EntryIs(table[..], order, head, tail, FindItem(Contents(), key));
      OnlyOne(table[..], order, head, tail, FindItem(Contents(), key));
      ghost var i;
      status, i := DeleteEntry(e);
    }

    /** existing_entry->v = val */
    method SetValue(n: nat, v: Pointer, ghost i: nat)
      requires Valid() && i < |order| && order[i] == n
      modifies table
      ensures Valid() && Contents() == old(Contents())[i := old(Contents())[i].(v := v)]
    {
      EntryIs(table[..], order, head, tail, i);
      ghost var s := table[..];
      table[n] := table[n].(v := v);
      assert table[..] == s[n := s[n].(v := v)];
      SetKeeps(s, hash, order, head, tail, i, v);
    }

    /** What json_object_object_add_ex does to the table of the object. */
    method Add(key: K, v: Pointer, isConst: bool)
      requires Valid() && UniqueKeys(Contents())
      modifies this, table
      ensures Valid() && (table == old(table) || fresh(table)) && freed == old(freed)
      ensures Contents() == AddItem(old(Contents()), key, v, isConst)
    {
      hide Linked, Probed, Items, Room, Full;
      var n := LookupEntry(key);
      if n == -1 {
        InsertWHash(key, v, hash(key), isConst);
      } else {
        EntryIs(table[..], order, head, tail, FindItem(Contents(), key));
        SetValue(n, v, FindItem(Contents(), key));
      }
    }

    /** A traversal with lh_foreach meets the entries in their order, the oldest first. */
    method Entries() returns (items: seq<Item<K>>)
      requires Valid()
      ensures items == Contents()
    {
      hide Linked, Probed, Items, LinkOk, Room;
      items := [];
      ghost var i := 0;
      HeadIs(table[..], order, head, tail);
      var entry := head;
      while entry != -1
        invariant i <= |order| && entry == At(order, i) && items == Contents()[..i]
        decreases |order| - i
      {
        EntryIs(table[..], order, head, tail, i);
        items := items + [Item(table[entry].k.key, table[entry].v, table[entry].isConst)];
        entry := table[entry].next;
        i := i + 1;
      }
    }

    /** lh_table_free up to the release of the memory. */
    method Free()
      requires Valid()
      modifies this`freed
      ensures freed == old(freed) + if frees then Contents() else []
    {
      if frees {
        var items := Entries();
        freed := freed + items;
      }
    }

    /** One operation on a table of which no key is there twice. */
    method Perform(op: Op<K>)
      requires Valid() && UniqueKeys(Contents()) && Applies(Contents(), op)
      modifies this, table
      ensures Valid() && (table == old(table) || fresh(table))
      ensures Contents() == After(old(Contents()), op) && UniqueKeys(Contents())
    {
      hide Linked, Probed, Items, UniqueKeys;
      StaysUnique(Contents(), op);
      match op {
        case Add(key, v, isConst) => Add(key, v, isConst);
        case Delete(key) => var _ := Delete(key);
        case Resize(newSize) => Resize(newSize);
      }
    }

    /** Any number of operations, one after the other. */
    method Execute(ops: seq<Op<K>>)
      requires Valid() && UniqueKeys(Contents()) && Legal(Contents(), ops)
      modifies this, table
      ensures Valid() && Contents() == AfterAll(old(Contents()), ops)
    {
      hide Linked, Probed, Items, Room, UniqueKeys, Applies, After, AfterAll, Legal;
      var i := 0;
      ghost var start := Contents();
      NoOps(start, ops);
      while i < |ops|
        modifies this, table
        invariant i <= |ops| && Valid() && (table == old(table) || fresh(table))
        invariant Contents() == AfterAll(start, ops[..i]) && UniqueKeys(Contents())
      {
        NextOp(start, ops, i);
        Perform(ops[i]);
        i := i + 1;
      }
      assert ops[..|ops|] == ops;
    }
  }

  lemma NoOps<K>(items: seq<Item<K>>, ops: seq<Op<K>>)
    ensures AfterAll(items, ops[..0]) == items
  {
  }

  lemma NextOp<K>(items: seq<Item<K>>, ops: seq<Op<K>>, i: nat)
    requires i < |ops| && Legal(items, ops)
    ensures Applies(AfterAll(items, ops[..i]), ops[i])
    ensures AfterAll(items, ops[..i + 1]) == After(AfterAll(items, ops[..i]), ops[i])
  {
    assert ops[..i + 1][..i] == ops[..i];
    assert Applies(AfterAll(items, ops[..i]), ops[i]);
  }

  // ------------------------------------------------------------ the list, entry by entry

  lemma HeadIs<K>(s: seq<Slot<K>>, order: seq<nat>, head: int, tail: int)
    requires Linked(s, order, head, tail)
    ensures head == At(order, 0)
  {
  }

  lemma HeadTail<K>(s: seq<Slot<K>>, order: seq<nat>, head: int, tail: int)
    requires Linked(s, order, head, tail)
    ensures -1 <= tail < |s| && -1 <= head < |s| && (head == -1 <==> tail == -1) && (head == -1 <==> order == [])
  {
  }

  lemma EntryIs<K>(s: seq<Slot<K>>, order: seq<nat>, head: int, tail: int, i: nat)
    requires Linked(s, order, head, tail) && i < |order|
    ensures var n := order[i];
            && n < |s| && s[n].k.Live? && s[n].next == At(order, i + 1)
            && Items(s, order)[i] == Item(s[n].k.key, s[n].v, s[n].isConst)
  {
    assert LinkOk(s, order, i);
  }

  lemma RoomShrinks(i: nat, newSize: nat, size: nat)
    requires newSize <= size && (size == newSize <==> Room(i, newSize))
    ensures Room(i + 1, newSize) <==> size == newSize && !Full(i, size)
  {
  }

  lemma Present<K>(s: seq<Slot<K>>, order: seq<nat>, head: int, tail: int, n: nat) returns (i: nat)
    requires Linked(s, order, head, tail) && n < |s| && s[n].k.Live?
    ensures i < |order| && order[i] == n && Items(s, order)[i] == Item(s[n].k.key, s[n].v, s[n].isConst)
  {
    i :| i < |order| && order[i] == n;
    assert Items(s, order)[i] == ItemOf(s[n]);
  }

  lemma Absent<K>(s: seq<Slot<K>>, order: seq<nat>, head: int, tail: int, key: K)
    requires Linked(s, order, head, tail) && forall m | 0 <= m < |s| :: s[m].k != Live(key)
    ensures forall i | 0 <= i < |order| :: Items(s, order)[i].key != key
  {
    forall i | 0 <= i < |order| ensures Items(s, order)[i].key != key {
      EntryIs(s, order, head, tail, i);
    }
  }

  // ------------------------------------------------------------ the search

  /** The slot looked at after so many steps from home. */
  function Around(home: nat, steps: nat, size: nat): nat
    requires home < size && steps <= size
  {
    if home + steps < size then home + steps else home + steps - size
  }

  /** Has slot m been looked at before that? */
  predicate Passed(home: nat, steps: nat, size: nat, m: nat) {
    home <= m < home + steps || m + size < home + steps
  }

  lemma PassedNone(home: nat, size: nat)
    requires home < size
    ensures Around(home, 0, size) == home && forall m: nat :: !Passed(home, 0, size, m)
  {
  }

  lemma PassedOneMore(home: nat, steps: nat, size: nat)
    requires home < size && steps < size
    ensures Around(home, steps + 1, size) == Step(Around(home, steps, size), size)
    ensures forall m | 0 <= m < size :: Passed(home, steps + 1, size, m) <==> Passed(home, steps, size, m) || m == Around(home, steps, size)
  {
    forall m | 0 <= m < size
      ensures Passed(home, steps + 1, size, m) <==> Passed(home, steps, size, m) || m == Around(home, steps, size)
    {
      PassedThis(home, steps, size, m);
    }
  }

  lemma PassedThis(home: nat, steps: nat, size: nat, m: nat)
    requires home < size && steps < size && m < size
    ensures Passed(home, steps + 1, size, m) <==> Passed(home, steps, size, m) || m == Around(home, steps, size)
  {
  }

  lemma PassedAll(home: nat, size: nat)
    requires home < size
    ensures forall m | 0 <= m < size :: Passed(home, size, size, m)
  {
  }

  /** A search that meets a never-used slot can stop: the key is not behind it. */
  lemma EmptyEnds<K>(s: seq<Slot<K>>, hash: K -> nat, key: K, steps: nat)
    requires Probed(s, hash) && steps < |s| && s[Around(Home(hash, key, |s|), steps, |s|)].k == Empty
    requires forall m | 0 <= m < |s| && Passed(Home(hash, key, |s|), steps, |s|, m) :: s[m].k != Live(key)
    ensures forall m | 0 <= m < |s| :: s[m].k != Live(key)
  {
    var home := Home(hash, key, |s|);
    var n := Around(home, steps, |s|);
    forall m | 0 <= m < |s| ensures s[m].k != Live(key) {
      if !Passed(home, steps, |s|, m) && m != n { NotBehind(s, hash, key, m, n); }
    }
  }

  lemma NotBehind<K>(s: seq<Slot<K>>, hash: K -> nat, key: K, m: nat, n: nat)
    requires Probed(s, hash) && m < |s| && n < |s| && s[n].k == Empty && InRun(Home(hash, key, |s|), m, n)
    ensures s[m].k != Live(key)
  {
  }

  // ------------------------------------------------------------ other small steps

  lemma OnlyOne<K>(s: seq<Slot<K>>, order: seq<nat>, head: int, tail: int, i: nat)
    requires Linked(s, order, head, tail) && i < |order|
    ensures forall j | 0 <= j < |order| && order[j] == order[i] :: j == i
    ensures order[i] < |s| && s[order[i]].k.Live?
  {
  }

  lemma UnlinkAll<K>(s: seq<Slot<K>>, hash: K -> nat, order: seq<nat>, head: int, tail: int, i: nat)
    requires Linked(s, order, head, tail) && Probed(s, hash) && i < |order|
    ensures var n, o1 := order[i], WithoutAt(order, i);
            && n < |s| && s[n].k.Live? && s[n].prev < |s| && s[n].next < |s| && CanTakeOut(s, head, tail, n)
            && ItemOf(s[n]) == Items(s, order)[i] && |o1| == |order| - 1
            && Linked(Unlinked(s, n), o1, if head == n then s[n].next else head, if tail == n then s[n].prev else tail)
            && Items(Unlinked(s, n), o1) == WithoutAt(Items(s, order), i)
            && Probed(Unlinked(s, n), hash)
  {
    hide Linked, Probed, Unlinked, CanTakeOut;
    NeighboursDiffer(s, order, head, tail, i);
    UnlinkKeeps(s, order, head, tail, i);
    UnlinkProbed(s, hash, order[i]);
    OnlyOne(s, order, head, tail, i);
    EntryIs(s, order, head, tail, i);
  }

  predicate CanTakeOut<K>(s: seq<Slot<K>>, head: int, tail: int, n: nat)
    requires n < |s|
  {
    var a, b := s[n].prev, s[n].next;
    && -1 <= a < |s| && -1 <= b < |s| && a != n && b != n && (a != -1 ==> a != b)
    && (tail == n <==> b == -1) && (head == n <==> a == -1)
  }

  /** The neighbours of slot n are linked with each other. */
  function Bridged<K>(s: seq<Slot<K>>, n: nat): (r: seq<Slot<K>>)
    requires n < |s| && s[n].prev < |s| && s[n].next < |s|
    ensures |r| == |s|
  {
    var a, b := s[n].prev, s[n].next;
    var s1 := if a < 0 then s else s[a := s[a].(next := b)];
    if b < 0 then s1 else s1[b := s1[b].(prev := a)]
  }

  lemma UnlinkedInSteps<K>(s: seq<Slot<K>>, n: nat)
    requires n < |s| && s[n].prev < |s| && s[n].next < |s| && s[n].prev != n && s[n].next != n
    ensures var s1 := Bridged(s[n := s[n].(v := 0, k := Freed)], n);
            Unlinked(s, n) == s1[n := s1[n].(next := -1, prev := -1)]
  {
  }

  lemma NeighboursDiffer<K>(s: seq<Slot<K>>, order: seq<nat>, head: int, tail: int, i: nat)
    requires Linked(s, order, head, tail) && i < |order|
    ensures var n := order[i];
            n < |s| && CanTakeOut(s, head, tail, n)
  {
    assert LinkOk(s, order, i);
  }

  lemma LessRoom(count: nat, size: nat)
    requires count > 0 && Room(count, size)
    ensures Room(count - 1, size)
  {
  }

  lemma SetKeeps<K>(s: seq<Slot<K>>, hash: K -> nat, order: seq<nat>, head: int, tail: int, i: nat, v: Pointer)
    requires Linked(s, order, head, tail) && Probed(s, hash) && i < |order| && order[i] < |s|
    ensures var s1 := s[order[i] := s[order[i]].(v := v)];
            && Linked(s1, order, head, tail) && Probed(s1, hash)
            && Items(s1, order) == Items(s, order)[i := Items(s, order)[i].(v := v)]
  {
    var s1 := s[order[i] := s[order[i]].(v := v)];
    assert forall n | 0 <= n < |s| :: s1[n].k == s[n].k && s1[n].next == s[n].next && s1[n].prev == s[n].prev;
    forall j | 0 <= j < |order| ensures LinkOk(s1, order, j) {
      assert LinkOk(s, order, j);
    }
  }
}
