/** json_object_equal: the loops of the C functions, and what they decide. */
module JsonEqual {
  import opened JsonValue

  /** The verdict, case by case. */
  predicate Equal(a: JValue, b: JValue)
    decreases a
  {
    match a
    case JNull => b.JNull?
    case JBool(x) => b.JBool? && b.b == x
    case JInt(n) => b.JInt? && b.n == n
    case JDouble(t) => b.JDouble? && b.text == t
    case JString(s) => b.JString? && b.s == s
    case JArray(es) => b.JArray? && |es| == |b.elems| && forall i | 0 <= i < |es| :: Equal(es[i], b.elems[i])
    case JObject(ms) =>
      && b.JObject?
      && (forall i | 0 <= i < |ms| :: HasEqual(ms[i], b.members))
      && (forall j | 0 <= j < |b.members| :: FindKey(ms, b.members[j].key) < |ms|)
  }

  /** The member's key is in the other object, with an equal value. */
  predicate HasEqual(m: Member, others: seq<Member>)
    decreases m
  {
    var j := FindKey(others, m.key);
    j < |others| && Equal(m.val, others[j].val)
  }

  /** json_object_equal */
  method JsonObjectEqual(a: JValue, b: JValue) returns (eq: bool)
    ensures eq == Equal(a, b)
    decreases a, 1
  {
    match a
    case JArray(_) => if b.JArray? { eq := JsonArrayEqual(a, b); } else { eq := false; }
    case JObject(_) => if b.JObject? { eq := AllValuesEqual(a, b); } else { eq := false; }
    case JNull => eq := b.JNull?;
    case JBool(x) => eq := b.JBool? && b.b == x;
    case JInt(n) => eq := b.JInt? && b.n == n;
    case JDouble(t) => eq := b.JDouble? && b.text == t;
    case JString(s) => eq := b.JString? && b.s == s;
  }

  /** json_array_equal */
  method JsonArrayEqual(a: JValue, b: JValue) returns (eq: bool)
    requires a.JArray? && b.JArray?
    ensures eq == Equal(a, b)
    decreases a, 0
  {
    if |a.elems| != |b.elems| { return false; }
    for i := 0 to |a.elems|
      invariant forall k | 0 <= k < i :: Equal(a.elems[k], b.elems[k])
    {
      var e := JsonObjectEqual(a.elems[i], b.elems[i]);
      if !e { return false; }
    }
    eq := true;
  }

  /** json_object_all_values_equal */
  method AllValuesEqual(a: JValue, b: JValue) returns (eq: bool)
    requires a.JObject? && b.JObject?
    ensures eq == Equal(a, b)
    decreases a, 0
  {
    for i := 0 to |a.members|
      invariant forall k | 0 <= k < i :: HasEqual(a.members[k], b.members)
    {
      var j := FindKey(b.members, a.members[i].key);
      if j == |b.members| {
        assert !HasEqual(a.members[i], b.members);
        return false;
      }
      var e := JsonObjectEqual(a.members[i].val, b.members[j].val);
      if !e {
        assert !HasEqual(a.members[i], b.members);
        return false;
      }
    }
    eq := KeysIncluded(a.members, b.members);
  }

  /** The second pass: every key of b is one of a. */
  method KeysIncluded(a: seq<Member>, b: seq<Member>) returns (all: bool)
    ensures all <==> forall k | 0 <= k < |b| :: FindKey(a, b[k].key) < |a|
  {
    for j := 0 to |b|
      invariant forall k | 0 <= k < j :: FindKey(a, b[k].key) < |a|
    {
      if FindKey(a, b[j].key) == |a| { return false; }
    }
    all := true;
  }

  // ------------------------------------------------------------ the meaning of a document

  /** A document without its representation: an object is a map from keys to values. */
  datatype Doc =
    | DNull | DBool(b: bool) | DInt(n: int) | DDouble(text: string) | DString(s: string)
    | DArray(elems: seq<Doc>)
    | DObject(members: map<string, Doc>)

  function Keys(ms: seq<Member>): (ks: set<string>)
    ensures forall k :: k in ks <==> FindKey(ms, k) < |ms|
  {
    set m | m in ms :: m.key
  }

  function Meaning(v: JValue): Doc {
    match v
    case JNull => DNull
    case JBool(b) => DBool(b)
    case JInt(n) => DInt(n)
    case JDouble(t) => DDouble(t)
    case JString(s) => DString(s)
    case JArray(es) => DArray(seq(|es|, i requires 0 <= i < |es| => Meaning(es[i])))
    case JObject(ms) => DObject(map k | k in Keys(ms) :: Meaning(ms[FindKey(ms, k)].val))
  }

  /** No object in v has a key twice, as in every table of json-c. */
  ghost predicate KeysUnique(v: JValue) {
    match v
    case JArray(es) => forall i | 0 <= i < |es| :: KeysUnique(es[i])
    case JObject(ms) => UniqueKeys(ms) && forall i | 0 <= i < |ms| :: KeysUnique(ms[i].val)
    case _ => true
  }

  lemma FindIs(ms: seq<Member>, i: nat)
    requires UniqueKeys(ms) && i < |ms|
    ensures FindKey(ms, ms[i].key) == i
  {
  }

  /** Two documents are equal exactly if they mean the same: the order of the members of
      an object does not matter, everything else does. */
  lemma {:induction false} EqualMeansSame(a: JValue, b: JValue)
    requires KeysUnique(a) && KeysUnique(b)
    ensures Equal(a, b) <==> Meaning(a) == Meaning(b)
    decreases a
  {
    if a.JArray? && b.JArray? {
      var da, db := Meaning(a).elems, Meaning(b).elems;
      forall i | 0 <= i < |a.elems| && i < |b.elems|
        ensures Equal(a.elems[i], b.elems[i]) <==> da[i] == db[i]
      {
        EqualMeansSame(a.elems[i], b.elems[i]);
      }
      if da == db { assert |a.elems| == |da| == |db| == |b.elems|; }
    } else if a.JObject? && b.JObject? {
      ObjectsMeanSame(a, b);
    }
  }

  /** ms and ns bind key k to documents of the same meaning. */
  ghost predicate SameAt(ms: seq<Member>, ns: seq<Member>, k: string) {
    var i, j := FindKey(ms, k), FindKey(ns, k);
    i < |ms| && j < |ns| && Meaning(ms[i].val) == Meaning(ns[j].val)
  }

  lemma ObjectMaps(a: JValue, b: JValue)
    requires a.JObject? && b.JObject?
    ensures Meaning(a) == Meaning(b) <==>
            forall k :: k in Keys(a.members) || k in Keys(b.members) ==> SameAt(a.members, b.members, k)
  {
    var ma, mb := Meaning(a).members, Meaning(b).members;
    if Meaning(a) == Meaning(b) {
      forall k | k in Keys(a.members) || k in Keys(b.members) ensures SameAt(a.members, b.members, k) {
        assert k in ma && k in mb && ma[k] == mb[k];
      }
    }
    if forall k :: k in Keys(a.members) || k in Keys(b.members) ==> SameAt(a.members, b.members, k) {
      forall k ensures k in ma <==> k in mb { }
      forall k | k in ma ensures ma[k] == mb[k] { assert SameAt(a.members, b.members, k); }
      assert ma == mb;
    }
  }

  lemma {:induction false} ObjectsMeanSame(a: JValue, b: JValue)
    requires a.JObject? && b.JObject? && KeysUnique(a) && KeysUnique(b)
    ensures Equal(a, b) <==> Meaning(a) == Meaning(b)
    decreases a, 0
  {
    var ms, ns := a.members, b.members;
    ObjectMaps(a, b);
    forall i | 0 <= i < |ms| ensures HasEqual(ms[i], ns) <==> SameAt(ms, ns, ms[i].key) {
      FindIs(ms, i);
      var j := FindKey(ns, ms[i].key);
      if j < |ns| { EqualMeansSame(ms[i].val, ns[j].val); }
    }
    hide Meaning, SameAt, KeysUnique;
    if Equal(a, b) {
      forall k | k in Keys(ms) || k in Keys(ns) ensures SameAt(ms, ns, k) {
        if k in Keys(ns) { assert ns[FindKey(ns, k)].key == k; }
        assert HasEqual(ms[FindKey(ms, k)], ns);
      }
    }
    if forall k :: k in Keys(ms) || k in Keys(ns) ==> SameAt(ms, ns, k) {
      SameIsEqual(a, b);
    }
  }

  lemma SameIsEqual(a: JValue, b: JValue)
    requires a.JObject? && b.JObject? && KeysUnique(a) && KeysUnique(b)
    requires forall k :: k in Keys(a.members) || k in Keys(b.members) ==> SameAt(a.members, b.members, k)
    requires forall i | 0 <= i < |a.members| ::
               HasEqual(a.members[i], b.members) <==> SameAt(a.members, b.members, a.members[i].key)
    ensures Equal(a, b)
  {
    hide Meaning;
    var ms, ns := a.members, b.members;
    forall i | 0 <= i < |ms| ensures HasEqual(ms[i], ns) {
      FindIs(ms, i);
      assert ms[i].key in Keys(ms);
    }
    forall j | 0 <= j < |ns| ensures FindKey(ms, ns[j].key) < |ms| {
      FindIs(ns, j);
      assert SameAt(ms, ns, ns[j].key);
    }
  }

  /** json_object_equal is an equivalence. */
  lemma Equivalence(a: JValue, b: JValue, c: JValue)
    requires KeysUnique(a) && KeysUnique(b) && KeysUnique(c)
    ensures Equal(a, a)
    ensures Equal(a, b) ==> Equal(b, a)
    ensures Equal(a, b) && Equal(b, c) ==> Equal(a, c)
  {
    EqualMeansSame(a, a);
    EqualMeansSame(a, b);
    EqualMeansSame(b, a);
    EqualMeansSame(b, c);
    EqualMeansSame(a, c);
  }
}
