/** arraylist.c: an array of pointers that own what they point to. */
module ArrayListModule {
  /** A pointer; 0 is NULL. */
  type Pointer = nat

  const DEFAULT_SIZE := 32

  /** The slots between the length and a larger index. */
  function Gap(slots: seq<Pointer>, length: nat, idx: nat): (r: seq<Pointer>)
    requires length <= |slots| && length <= idx
    ensures |r| == idx - length
    ensures forall i | 0 <= i < |r| :: r[i] == if length + i < |slots| then slots[length + i] else 0
  {
    seq(idx - length, i requires 0 <= i < idx - length => if length + i < |slots| then slots[length + i] else 0)
  }

  /** The contents after a pointer has been stored at an index. */
  function PutAt(slots: seq<Pointer>, length: nat, idx: nat, data: Pointer): (r: seq<Pointer>)
    requires length <= |slots|
    ensures |r| == if idx < length then length else idx + 1
  {
    if idx < length then slots[..length][idx := data] else slots[..length] + Gap(slots, length, idx) + [data]
  }

  /** The slots after a pointer has been stored, the array having grown with NULLs. */
  ghost predicate Put(slots: seq<Pointer>, idx: nat, data: Pointer, now: seq<Pointer>) {
    && |now| > idx && |now| >= |slots|
    && forall i | 0 <= i < |now| :: now[i] == if i == idx then data else if i < |slots| then slots[i] else 0
  }

  lemma PutAtIs(slots: seq<Pointer>, length: nat, idx: nat, data: Pointer, now: seq<Pointer>)
    requires length <= |slots| && Put(slots, idx, data, now)
    ensures now[..if idx < length then length else idx + 1] == PutAt(slots, length, idx, data)
  {
  }

  /** What a list does when the value of a slot goes: NULL is not handed to free_fn. */
  function Freeing(p: Pointer): seq<Pointer> { if p == 0 then [] else [p] }

  function FreeingAll(ps: seq<Pointer>): seq<Pointer> {
    if ps == [] then [] else FreeingAll(ps[..|ps| - 1]) + Freeing(ps[|ps| - 1])
  }

  class ArrayList {
    var array_: array<Pointer>
    var length: nat
    var size: nat
    /** The pointers free_fn has been called with. */
    var freed: seq<Pointer>

    ghost predicate Valid()
      reads this
    {
      length <= size == array_.Length && size > 0
    }

    ghost function Contents(): (r: seq<Pointer>)
      requires Valid()
      reads this, array_
      ensures |r| == length
    {
      array_[..length]
    }

    /** Behind the length there are only NULLs. */
    ghost predicate CleanTail()
      requires Valid()
      reads this, array_
    {
      forall i | length <= i < size :: array_[i] == 0
    }

    /** array_list_new */
    constructor ()
      ensures Valid() && Contents() == [] && CleanTail() && freed == [] && fresh(array_)
    {
      size, length, freed := DEFAULT_SIZE, 0, [];
      array_ := new Pointer[DEFAULT_SIZE](_ => 0);
    }

    /** array_list_get_idx */
    method GetIdx(i: nat) returns (p: Pointer)
      requires Valid()
      ensures p == if i < |Contents()| then Contents()[i] else 0
    {
      if i >= length { return 0; }
      p := array_[i];
    }

    /** array_list_expand_internal: the old slots stay, and the new ones are NULL. */
    method Expand(max: nat)
      requires Valid()
      modifies this`array_, this`size
      ensures Valid() && size >= old(size) && size >= max && (array_ == old(array_) || fresh(array_))
      ensures array_[..] == old(array_[..]) + seq(size - old(size), _ => 0)
      ensures size == if max < old(size) then old(size) else if 2 * old(size) < max then max else 2 * old(size)
    {
      if max < size {
        assert array_[..] == array_[..] + seq(0, _ => 0);
        return;
      }
      var newSize := size * 2;
      if newSize < max { newSize := max; }
      var t := new Pointer[newSize](i requires 0 <= i < newSize reads this, array_ =>
        if i < array_.Length then array_[i] else 0);
      assert t[..] == array_[..] + seq(newSize - size, _ => 0);
      array_ := t;
      size := newSize;
    }

    /** array_list_put_idx */
    method PutIdx(idx: nat, data: Pointer)
      requires Valid()
      modifies this, array_
      ensures Valid() && (array_ == old(array_) || fresh(array_))
      ensures Contents() == PutAt(old(array_[..]), old(length), idx, data)
      ensures freed == old(freed) + if idx < old(length) then Freeing(old(Contents())[idx]) else []
      ensures size >= old(size) && Put(old(array_[..]), idx, data, array_[..])
    {
      ghost var slots, was := array_[..], length;
      Expand(idx + 1);
      ghost var longer := array_[..];
      if idx < length && array_[idx] != 0 {
        freed := freed + [array_[idx]];
      }
      array_[idx] := data;
      if length <= idx { length := idx + 1; }
      assert array_[..] == longer[idx := data];
      PutAtIs(slots, was, idx, data, array_[..]);
    }

    /** array_list_add */
    method Add(data: Pointer)
      requires Valid()
      modifies this, array_
      ensures Valid() && Contents() == old(Contents()) + [data] && freed == old(freed)
      ensures old(CleanTail()) ==> CleanTail()
    {
      ghost var c := Contents();
      PutIdx(length, data);
      assert c + [] + [data] == c + [data];
      assert forall i | length <= i < size :: array_[i] == array_[..][i];
    }

    /** array_list_del_idx: what was moved down also stays where it was, behind the end. */
    method DelIdx(idx: nat, count: nat) returns (status: int)
      requires Valid()
      modifies this`length, this`freed, array_
      ensures Valid()
      ensures status == if idx >= old(length) || idx + count > old(length) then -1 else 0
      ensures status != 0 ==> array_[..] == old(array_[..]) && length == old(length) && freed == old(freed)
      ensures status == 0 ==>
                && Contents() == old(Contents())[..idx] + old(Contents())[idx + count..]
                && freed == old(freed) + FreeingAll(old(Contents())[idx..idx + count])
                && array_[..] == AfterDelete(old(array_[..]), old(length), idx, count)
    {
      hide AfterDelete, FreeingAll;
      var stop := idx + count;
      if idx >= length || stop > length { return -1; }
      FreeRange(idx, stop);
      ghost var slots := array_[..];
      SliceOfPrefix(slots, length, idx, stop);
      MoveDown(idx, stop, length - stop);
      length := length - count;
      MovedDown(slots, array_[..], idx, stop, old(length));
      status := 0;
    }

    /** The loop of array_list_del_idx. */
    method FreeRange(idx: nat, stop: nat)
      requires idx <= stop <= array_.Length
      modifies this`freed
      ensures freed == old(freed) + FreeingAll(array_[..][idx..stop])
    {
      ghost var slots := array_[..];
      var i := idx;
      while i < stop
        invariant idx <= i <= stop && array_[..] == slots
        invariant freed == old(freed) + FreeingAll(slots[idx..i])
      {
        assert slots[idx..i + 1][..i - idx] == slots[idx..i];
        if array_[i] != 0 { freed := freed + [array_[i]]; }
        i := i + 1;
      }
    }

    /** memmove(array + to, array + from, n * sizeof(void *)) for to <= from. */
    method MoveDown(to: nat, from: nat, n: nat)
      requires to <= from && from + n <= array_.Length
      modifies array_
      ensures forall k | 0 <= k < array_.Length ::
                array_[k] == if to <= k < to + n then old(array_[k + (from - to)]) else old(array_[k])
    {
      var j := 0;
      while j < n
        invariant j <= n
        invariant forall k | 0 <= k < array_.Length ::
                    array_[k] == if to <= k < to + j then old(array_[k + (from - to)]) else old(array_[k])
      {
        array_[to + j] := array_[from + j];
        j := j + 1;
      }
    }

    /** array_list_free up to the release of the memory. */
    method Free()
      requires Valid()
      modifies this`freed
      ensures freed == old(freed) + FreeingAll(Contents())
    {
      var i := 0;
      while i < length
        invariant i <= length && freed == old(freed) + FreeingAll(Contents()[..i])
      {
        assert Contents()[..i + 1][..i] == Contents()[..i];
        if array_[i] != 0 { freed := freed + [array_[i]]; }
        i := i + 1;
      }
      assert Contents()[..length] == Contents();
    }
  }

  lemma MovedDown(slots: seq<Pointer>, now: seq<Pointer>, idx: nat, stop: nat, length: nat)
    requires idx <= stop <= length <= |slots| == |now|
    requires forall k {:trigger now[k]} | 0 <= k < |now| ::
               now[k] == if idx <= k < idx + (length - stop) then slots[k + (stop - idx)] else slots[k]
    ensures now == AfterDelete(slots, length, idx, stop - idx)
    ensures now[..length - (stop - idx)] == slots[..length][..idx] + slots[..length][stop..]
  {
    var (r, count) := (AfterDelete(slots, length, idx, stop - idx), stop - idx);
    assert idx + (length - stop) == length - count;
    forall k {:trigger r[k]} | 0 <= k < |now| ensures now[k] == r[k] { }
    var (x, y) := (now[..length - count], slots[..length][..idx] + slots[..length][stop..]);
    forall k {:trigger x[k]} | 0 <= k < |x| ensures x[k] == y[k] {
      assert x[k] == now[k];
      if k >= idx { assert y[k] == slots[..length][stop..][k - idx]; }
    }
  }

  lemma SliceOfPrefix(slots: seq<Pointer>, length: nat, idx: nat, stop: nat)
    requires idx <= stop <= length <= |slots|
    ensures slots[idx..stop] == slots[..length][idx..stop]
  {
  }

  // ------------------------------------------------------------ stale pointers

  /** The slots behind the end after deleting from a list. */
  function AfterDelete(slots: seq<Pointer>, length: nat, idx: nat, count: nat): (r: seq<Pointer>)
    requires idx + count <= length <= |slots|
    ensures |r| == |slots|
    ensures forall k | 0 <= k < |r| :: r[k] == if idx <= k < length - count then slots[k + count] else slots[k]
  {
    seq(|slots|, k requires 0 <= k < |slots| => if idx <= k < length - count then slots[k + count] else slots[k])
  }

  /** No pointer between two positions but NULL. */
  ghost predicate NullsIn(ps: seq<Pointer>, from: nat, to: nat) {
    forall i | from <= i < to && i < |ps| :: ps[i] == 0
  }

  /** A pointer stored behind a gap: the gap reads as NULLs exactly if the slots there are
      NULL. */
  lemma GapIsNull(slots: seq<Pointer>, length: nat, idx: nat, data: Pointer)
    requires length <= |slots| && length <= idx
    ensures NullsIn(PutAt(slots, length, idx, data), length, idx) <==> NullsIn(slots, length, idx)
  {
    var r := PutAt(slots, length, idx, data);
    assert forall i | length <= i < idx :: r[i] == if i < |slots| then slots[i] else 0;
  }

  /** After a deletion that is, as far as the index goes beyond the new end, if the last
      items of the list before the deletion were NULL. */
  lemma GapAfterDelete(slots: seq<Pointer>, length: nat, from: nat, count: nat, idx: nat, data: Pointer)
    requires from + count <= length <= |slots| && length - count <= idx
    ensures var now := AfterDelete(slots, length, from, count);
            NullsIn(PutAt(now, length - count, idx, data), length - count, idx) <==> NullsIn(slots, length - count, idx)
  {
    var now := AfterDelete(slots, length, from, count);
    GapIsNull(now, length - count, idx, data);
    assert forall i | length - count <= i < |slots| :: now[i] == slots[i];
  }

  /** A freed pointer comes back: after deleting the last of two items and storing at
      index 2, slot 1 holds the deleted pointer again. */
  lemma StalePointerReturns(a: Pointer, b: Pointer, c: Pointer)
    requires b != 0
    ensures var slots := [a, b] + seq(DEFAULT_SIZE - 2, _ => 0);
            var now := AfterDelete(slots, 2, 1, 1);
            && FreeingAll(slots[1..2]) == [b]
            && PutAt(now, 1, 2, c) == [a, b, c]
  {
    var slots := [a, b] + seq(DEFAULT_SIZE - 2, _ => 0);
    assert slots[1..2] == [b] && [b][..0] == [];
    assert FreeingAll([]) == [];
    assert Gap(AfterDelete(slots, 2, 1, 1), 1, 2) == [b];
  }

  // ------------------------------------------------------------ ownership

  /** The references in a list; NULL is none. */
  function Owned(ps: seq<Pointer>): multiset<Pointer> { multiset(ps)[0 := 0] }

  lemma NothingOwned(ps: seq<Pointer>)
    ensures Owned(ps) == multiset{} <==> NullsIn(ps, 0, |ps|)
  {
    if Owned(ps) == multiset{} {
      forall i | 0 <= i < |ps| ensures ps[i] == 0 {
        assert ps[i] in multiset(ps) && Owned(ps)[ps[i]] == 0;
      }
    }
    if NullsIn(ps, 0, |ps|) {
      assert forall p | p in multiset(ps) :: p in ps && p == 0;
    }
  }

  lemma OwnedAppend(a: seq<Pointer>, b: seq<Pointer>)
    ensures Owned(a + b) == Owned(a) + Owned(b)
  {
  }

  /** Storing a pointer: what is owned afterwards together with what was freed is what was
      owned before and the new pointer, each once, exactly if the gap is NULL. */
  lemma PutConserves(slots: seq<Pointer>, length: nat, idx: nat, data: Pointer)
    requires length <= |slots|
    ensures var gone := if idx < length then Freeing(slots[idx]) else [];
            Owned(PutAt(slots, length, idx, data)) + Owned(gone) == Owned(slots[..length]) + Owned(Freeing(data))
            <==> NullsIn(slots, length, idx)
  {
    if idx < length { ReplaceConserves(slots[..length], idx, data); } else { AppendConserves(slots, length, idx, data); }
  }

  lemma ReplaceConserves(items: seq<Pointer>, idx: nat, data: Pointer)
    requires idx < |items|
    ensures Owned(items[idx := data]) + Owned(Freeing(items[idx])) == Owned(items) + Owned(Freeing(data))
  {
    hide Owned, Freeing;
    var a, b := items[..idx], items[idx + 1..];
    assert items == a + [items[idx]] + b && items[idx := data] == a + [data] + b;
    OwnedAppend(a + [items[idx]], b);
    OwnedAppend(a, [items[idx]]);
    OwnedAppend(a + [data], b);
    OwnedAppend(a, [data]);
    FreeingOwned(data);
    FreeingOwned(items[idx]);
  }

  lemma AppendConserves(slots: seq<Pointer>, length: nat, idx: nat, data: Pointer)
    requires length <= |slots| && length <= idx
    ensures Owned(PutAt(slots, length, idx, data)) == Owned(slots[..length]) + Owned(Freeing(data))
            <==> NullsIn(slots, length, idx)
  {
    hide Owned, Freeing, NullsIn, Gap;
    var items, gap := slots[..length], Gap(slots, length, idx);
    OwnedAppend(items + gap, [data]);
    OwnedAppend(items, gap);
    FreeingOwned(data);
    NothingOwned(gap);
    GapIsNull(slots, length, idx, data);
    GapInPut(slots, length, idx, data);
    Cancel(Owned(items), Owned(gap), Owned([data]));
  }

  lemma GapInPut(slots: seq<Pointer>, length: nat, idx: nat, data: Pointer)
    requires length <= |slots| && length <= idx
    ensures NullsIn(Gap(slots, length, idx), 0, idx - length) <==> NullsIn(PutAt(slots, length, idx, data), length, idx)
  {
    var gap, r := Gap(slots, length, idx), PutAt(slots, length, idx, data);
    assert forall i | length <= i < idx :: r[i] == gap[i - length];
    assert forall i | 0 <= i < |gap| :: gap[i] == r[i + length];
  }

  lemma FreeingOwned(p: Pointer)
    ensures Owned(Freeing(p)) == Owned([p])
  {
  }

  lemma Cancel(a: multiset<Pointer>, b: multiset<Pointer>, c: multiset<Pointer>)
    ensures a + b + c == a + c <==> b == multiset{}
  {
    if a + b + c == a + c {
      forall p ensures b[p] == 0 { assert (a + b + c)[p] == (a + c)[p]; }
    }
  }

  lemma {:induction false} FreeingAllOwned(ps: seq<Pointer>)
    ensures Owned(FreeingAll(ps)) == Owned(ps)
  {
    hide Owned, Freeing;
    if ps != [] {
      var n := |ps| - 1;
      FreeingAllOwned(ps[..n]);
      FreeingOwned(ps[n]);
      OwnedAppend(FreeingAll(ps[..n]), Freeing(ps[n]));
      OwnedAppend(ps[..n], [ps[n]]);
      assert ps == ps[..n] + [ps[n]];
    }
  }

  /** A deletion frees what the list owned there, and the list owns the rest. */
  lemma DeleteConserves(items: seq<Pointer>, idx: nat, count: nat)
    requires idx + count <= |items|
    ensures Owned(items[..idx] + items[idx + count..]) + Owned(FreeingAll(items[idx..idx + count])) == Owned(items)
  {
    hide Owned, FreeingAll;
    var a, b, c := items[..idx], items[idx..idx + count], items[idx + count..];
    FreeingAllOwned(b);
    OwnedAppend(a, c);
    OwnedAppend(a + b, c);
    OwnedAppend(a, b);
    assert items == a + b + c;
  }
}
