/** What the other modules need about sequences. */
module Sequences {
  datatype Option<T> = None | Some(value: T)

  /** s stands in b at position i. */
  predicate At<T(==)>(b: seq<T>, i: nat, s: seq<T>) { i + |s| <= |b| && b[i..i + |s|] == s }

  lemma AtSplit<T>(b: seq<T>, i: nat, x: seq<T>, y: seq<T>)
    requires At(b, i, x + y)
    ensures At(b, i, x) && At(b, i + |x|, y)
  {
    var n := |x + y|;
    assert b[i..i + |x|] == b[i..i + n][..|x|] == (x + y)[..|x|] == x;
    assert b[i + |x|..i + n] == b[i..i + n][|x|..] == (x + y)[|x|..] == y;
  }

  function Concat<T>(parts: seq<seq<T>>): seq<T> {
    if parts == [] then [] else parts[0] + Concat(parts[1..])
  }

  lemma {:induction false} ConcatAppend<T>(a: seq<seq<T>>, b: seq<seq<T>>)
    ensures Concat(a + b) == Concat(a) + Concat(b)
    decreases |a|
  {
    if a == [] {
      assert a + b == b;
    } else {
      ConcatAppend(a[1..], b);
      assert (a + b)[1..] == a[1..] + b;
    }
  }

  lemma ConcatOne<T>(part: seq<T>)
    ensures Concat([part]) == part
  {
    assert Concat([part]) == part + Concat([part][1..]);
  }

  /** One more part at the end. */
  lemma ConcatNext<T>(parts: seq<seq<T>>, i: nat)
    requires i < |parts|
    ensures Concat(parts[..i + 1]) == Concat(parts[..i]) + parts[i]
  {
    ConcatAppend(parts[..i], [parts[i]]);
    ConcatOne(parts[i]);
    assert parts[..i + 1] == parts[..i] + [parts[i]];
  }
}
