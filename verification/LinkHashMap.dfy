/** The insertion-ordered map that linkhash.c stands for. */
module LinkHashMap {
  import opened LinkHash
  import opened Sequences

  ghost predicate UniqueKeys<K>(items: seq<Item<K>>) {
    forall i, j | 0 <= i < j < |items| :: items[i].key != items[j].key
  }

  /** The position of a key, |items| if it is not there. */
  function FindItem<K(==)>(items: seq<Item<K>>, key: K): (i: nat)
    ensures i <= |items| && (i < |items| ==> items[i].key == key)
    ensures forall j | 0 <= j < i :: items[j].key != key
  {
    if items == [] || items[0].key == key then 0 else 1 + FindItem(items[1..], key)
  }

  lemma FindUnique<K>(items: seq<Item<K>>, i: nat)
    requires UniqueKeys(items) && i < |items|
    ensures FindItem(items, items[i].key) == i
  {
  }

  function Lookup<K(==)>(items: seq<Item<K>>, key: K): (bool, Pointer) {
    var i := FindItem(items, key);
    if i < |items| then (true, items[i].v) else (false, 0)
  }

  /** A new key goes to the end; an old one keeps its place and its k_is_constant. */
  function AddItem<K(==)>(items: seq<Item<K>>, key: K, v: Pointer, isConst: bool): seq<Item<K>> {
    var i := FindItem(items, key);
    if i < |items| then items[i := items[i].(v := v)] else items + [Item(key, v, isConst)]
  }

  function RemoveKey<K(==)>(items: seq<Item<K>>, key: K): seq<Item<K>> {
    var i := FindItem(items, key);
    if i < |items| then WithoutAt(items, i) else items
  }

  // ------------------------------------------------------------ runs

  datatype Op<K> = Add(key: K, v: Pointer, isConst: bool) | Delete(key: K) | Resize(newSize: nat)

  /** A table may be resized to any size that has room for its entries. */
  predicate Applies<K>(items: seq<Item<K>>, op: Op<K>) {
    op.Resize? ==> op.newSize > 0 && Room(|items|, op.newSize)
  }

  function After<K(==)>(items: seq<Item<K>>, op: Op<K>): seq<Item<K>> {
    match op
    case Add(key, v, isConst) => AddItem(items, key, v, isConst)
    case Delete(key) => RemoveKey(items, key)
    case Resize(_) => items
  }

  function AfterAll<K(==)>(items: seq<Item<K>>, ops: seq<Op<K>>): seq<Item<K>>
    decreases |ops|
  {
    if ops == [] then items else After(AfterAll(items, ops[..|ops| - 1]), ops[|ops| - 1])
  }

  ghost predicate Legal<K>(items: seq<Item<K>>, ops: seq<Op<K>>) {
    forall i | 0 <= i < |ops| :: Applies(AfterAll(items, ops[..i]), ops[i])
  }

  lemma StaysUnique<K>(items: seq<Item<K>>, op: Op<K>)
    requires UniqueKeys(items)
    ensures UniqueKeys(After(items, op))
  {
  }

  // ------------------------------------------------------------ what a history decides

  /** The value last added for a key, unless it has been deleted since. */
  function LastValue<K(==)>(ops: seq<Op<K>>, key: K): Option<Pointer>
    decreases |ops|
  {
    if ops == [] then None
    else
      var op := ops[|ops| - 1];
      if op.Add? && op.key == key then Some(op.v)
      else if op.Delete? && op.key == key then None
      else LastValue(ops[..|ops| - 1], key)
  }

  /** When the present entry of a key was made: at an Add that found no entry. */
  function Born<K(==)>(ops: seq<Op<K>>, key: K): int
    decreases |ops|
  {
    if ops == [] then -1
    else
      var op := ops[|ops| - 1];
      var before := ops[..|ops| - 1];
      if op.Add? && op.key == key && LastValue(before, key).None? then |ops| - 1 else Born(before, key)
  }

  lemma {:induction false} BornBefore<K>(ops: seq<Op<K>>, key: K)
    ensures Born(ops, key) < |ops|
    decreases |ops|
  {
    if ops != [] { BornBefore(ops[..|ops| - 1], key); }
  }

  ghost predicate ByBirth<K>(items: seq<Item<K>>, ops: seq<Op<K>>) {
    forall i, j | 0 <= i < j < |items| :: Born(ops, items[i].key) < Born(ops, items[j].key)
  }

  /** Every entry has the k_is_constant of the Add that made it. */
  ghost predicate ConstOfBirth<K>(items: seq<Item<K>>, ops: seq<Op<K>>) {
    forall i | 0 <= i < |items| ::
      var b := Born(ops, items[i].key); 0 <= b < |ops| && ops[b].Add? && ops[b].isConst == items[i].isConst
  }

  function Told(o: Option<Pointer>): (bool, Pointer) {
    match o
    case None => (false, 0)
    case Some(v) => (true, v)
  }

  ghost predicate Agrees<K(!new)>(items: seq<Item<K>>, ops: seq<Op<K>>) {
    forall key: K :: Lookup(items, key) == Told(LastValue(ops, key))
  }

  /** The table after any history: it has exactly the keys that were added and not deleted
      since, each with the value last added and the flag first added, in the order in which
      their entries were made. */
  lemma {:induction false} HistoryDecides<K(!new)>(ops: seq<Op<K>>)
    ensures var items := AfterAll([], ops);
            UniqueKeys(items) && ByBirth(items, ops) && Agrees(items, ops) && ConstOfBirth(items, ops)
    decreases |ops|
  {
    hide After, ByBirth, Agrees, UniqueKeys, ConstOfBirth;
    var items := AfterAll([], ops);
    if ops == [] {
      NoHistory<K>();
    } else {
      var before, op := ops[..|ops| - 1], ops[|ops| - 1];
      HistoryDecides(before);
      StaysUnique(AfterAll([], before), op);
      AgreesAfter(AfterAll([], before), ops);
      BirthAfter(AfterAll([], before), ops);
      ConstAfter(AfterAll([], before), ops);
    }
  }

  lemma NoHistory<K(!new)>()
    ensures UniqueKeys<K>([]) && ByBirth<K>([], []) && Agrees<K>([], []) && ConstOfBirth<K>([], [])
  {
  }

  lemma AddLookup<K>(items: seq<Item<K>>, key: K, v: Pointer, isConst: bool, k: K)
    requires UniqueKeys(items)
    ensures Lookup(AddItem(items, key, v, isConst), k) == if k == key then (true, v) else Lookup(items, k)
  {
    var i, j, r := FindItem(items, key), FindItem(items, k), AddItem(items, key, v, isConst);
    StaysUnique(items, Add(key, v, isConst));
    if k == key {
      FindUnique(r, i);
    } else if j < |items| {
      assert r[j] == items[j];
      FindUnique(r, j);
    }
  }

  lemma RemoveLookup<K>(items: seq<Item<K>>, key: K, k: K)
    requires UniqueKeys(items)
    ensures Lookup(RemoveKey(items, key), k) == if k == key then (false, 0) else Lookup(items, k)
  {
    var i, j, r := FindItem(items, key), FindItem(items, k), RemoveKey(items, key);
    StaysUnique(items, Delete(key));
    var g := FindItem(r, k);
    if i < |items| {
      assert g < |r| ==> r[g] == items[if g < i then g else g + 1];
      if j < |items| && j != i {
        assert r[if j < i then j else j - 1] == items[j];
        FindUnique(r, if j < i then j else j - 1);
      }
    }
  }

  lemma AgreesAfter<K(!new)>(items: seq<Item<K>>, ops: seq<Op<K>>)
    requires ops != [] && UniqueKeys(items) && Agrees(items, ops[..|ops| - 1])
    ensures Agrees(After(items, ops[|ops| - 1]), ops)
  {
    hide UniqueKeys, AddItem, RemoveKey, Lookup;
    var op := ops[|ops| - 1];
    forall k: K ensures Lookup(After(items, op), k) == Told(LastValue(ops, k)) {
      assert Lookup(items, k) == Told(LastValue(ops[..|ops| - 1], k));
      match op
      case Add(key, v, isConst) => AddLookup(items, key, v, isConst, k);
      case Delete(key) => RemoveLookup(items, key, k);
      case Resize(_) =>
    }
  }

  /** Where an entry was before the operation; |items| if it is new. */
  function Source<K(==)>(items: seq<Item<K>>, op: Op<K>, i: nat): nat {
    if op.Delete? && FindItem(items, op.key) <= i then i + 1 else i
  }

  lemma SourceIs<K>(items: seq<Item<K>>, op: Op<K>, i: nat)
    requires i < |After(items, op)|
    ensures var (r, k) := (After(items, op), Source(items, op, i));
            if k < |items| then r[i].key == items[k].key && r[i].isConst == items[k].isConst
            else k == |items| && op.Add? && r[i].key == op.key && FindItem(items, op.key) == |items| && r[i].isConst == op.isConst
  {
  }

  lemma BirthAfter<K(!new)>(items: seq<Item<K>>, ops: seq<Op<K>>)
    requires ops != [] && Agrees(items, ops[..|ops| - 1]) && ByBirth(items, ops[..|ops| - 1])
    ensures ByBirth(After(items, ops[|ops| - 1]), ops)
  {
    hide LastValue, Agrees, Born, After, Source;
    var before, op := ops[..|ops| - 1], ops[|ops| - 1];
    var r := After(items, op);
    forall i, j | 0 <= i < j < |r| ensures Born(ops, r[i].key) < Born(ops, r[j].key) {
      BirthKept(items, ops, r[i].key);
      BirthKept(items, ops, r[j].key);
      BornBefore(before, r[i].key);
      SourceIs(items, op, i);
      SourceIs(items, op, j);
      SourceRises(items, op, i, j);
    }
  }

  lemma ConstAfter<K(!new)>(items: seq<Item<K>>, ops: seq<Op<K>>)
    requires ops != [] && Agrees(items, ops[..|ops| - 1]) && ConstOfBirth(items, ops[..|ops| - 1])
    requires UniqueKeys(items)
    ensures ConstOfBirth(After(items, ops[|ops| - 1]), ops)
  {
    hide LastValue, Agrees, Born, After, Source, UniqueKeys;
    var before, op := ops[..|ops| - 1], ops[|ops| - 1];
    var r := After(items, op);
    forall i | 0 <= i < |r|
      ensures var b := Born(ops, r[i].key); 0 <= b < |ops| && ops[b].Add? && ops[b].isConst == r[i].isConst
    {
      BirthKept(items, ops, r[i].key);
      SourceIs(items, op, i);
      var k := Source(items, op, i);
      if k < |items| {
        FoundAgain(items, k);
        var b := Born(before, items[k].key);
        assert before[b] == ops[b];
      }
    }
  }

  lemma FoundAgain<K>(items: seq<Item<K>>, k: nat)
    requires k < |items|
    ensures FindItem(items, items[k].key) < |items|
  {
  }

  lemma SourceRises<K>(items: seq<Item<K>>, op: Op<K>, i: nat, j: nat)
    requires i < j
    ensures Source(items, op, i) < Source(items, op, j)
  {
  }

  /** Only an Add of a key that was not there gives it a new date of birth. */
  lemma BirthKept<K(!new)>(items: seq<Item<K>>, ops: seq<Op<K>>, key: K)
    requires ops != [] && Agrees(items, ops[..|ops| - 1])
    ensures Born(ops, key)
            == if ops[|ops| - 1].Add? && ops[|ops| - 1].key == key && FindItem(items, key) == |items|
               then |ops| - 1 else Born(ops[..|ops| - 1], key)
  {
    hide LastValue;
    assert Lookup(items, key) == Told(LastValue(ops[..|ops| - 1], key));
  }
}
