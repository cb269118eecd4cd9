/** Which objects are alive: reachability in a heap of objects, and acyclic heaps. */
module ObjectGraph {
  import opened RefCounts

  predicate Edge(h: Heap, x: Ref, y: Ref) { x < |h| && h[x].Node? && y in Refs(h[x].body) && y > 0 }

  predicate EdgeAt(h: Heap, p: seq<Ref>, i: nat)
    requires i < |p| - 1
  {
    Edge(h, p[i], p[i + 1])
  }

  ghost predicate Path(h: Heap, p: seq<Ref>) {
    p != [] && forall i | 0 <= i < |p| - 1 :: EdgeAt(h, p, i)
  }

  ghost predicate Reaches(h: Heap, x: Ref, y: Ref) {
    exists p: seq<Ref> :: Path(h, p) && p[0] == x && p[|p| - 1] == y
  }

  lemma ReachesSelf(h: Heap, x: Ref)
    ensures Reaches(h, x, x)
  {
    assert Path(h, [x]);
  }

  lemma ReachesFirst(h: Heap, x: Ref, y: Ref, z: Ref)
    requires Edge(h, x, y) && Reaches(h, y, z)
    ensures Reaches(h, x, z)
  {
    var p :| Path(h, p) && p[0] == y && p[|p| - 1] == z;
    var q := [x] + p;
    forall i | 0 <= i < |q| - 1 ensures EdgeAt(h, q, i) {
      if i > 0 { assert EdgeAt(h, p, i - 1); }
    }
  }

  lemma ReachesNext(h: Heap, x: Ref, y: Ref, z: Ref)
    requires Reaches(h, x, y) && Edge(h, y, z)
    ensures Reaches(h, x, z)
  {
    var p :| Path(h, p) && p[0] == x && p[|p| - 1] == y;
    var q := p + [z];
    forall i | 0 <= i < |q| - 1 ensures EdgeAt(h, q, i) {
      if i < |p| - 1 { assert EdgeAt(h, p, i); }
    }
  }

  /** Containers come before what they hold. */
  ghost predicate Ranked(h: Heap, rank: seq<nat>) {
    |rank| == |h| && forall x, y {:trigger Edge(h, x, y)} | 0 <= x < |h| && 0 <= y < |h| && Edge(h, x, y) :: rank[x] > rank[y]
  }

  /** No object contains itself. */
  ghost predicate Acyclic(h: Heap) { exists rank: seq<nat> :: Ranked(h, rank) }

  lemma {:induction false} RankFalls(h: Heap, rank: seq<nat>, p: seq<Ref>)
    requires Ranked(h, rank) && Path(h, p) && forall i | 0 <= i < |p| :: p[i] < |h|
    ensures |p| > 1 ==> rank[p[0]] > rank[p[|p| - 1]]
    decreases |p|
  {
    if |p| > 1 {
      assert EdgeAt(h, p, 0);
      var q := p[1..];
      forall i | 0 <= i < |q| - 1 ensures EdgeAt(h, q, i) {
        assert EdgeAt(h, p, i + 1);
      }
      RankFalls(h, rank, q);
    }
  }

  // ------------------------------------------------------------ consistent heaps

  /** Between two calls: every count is the number of references held by callers and of
      slots, and there are no objects without references. */
  ghost predicate Consistent(h: Heap, held: multiset<Ref>) {
    && h != [] && h[0].Free?
    && Balanced(h, held, multiset{})
    && forall x | 0 <= x < |h| && h[x].Node? :: h[x].rc > 0
  }

  ghost predicate Kept(h: Heap, held: multiset<Ref>, x: Ref) {
    exists y: Ref :: held[y] > 0 && y > 0 && Reaches(h, y, x)
  }

  /** What is held or stored is alive. */
  lemma EdgeIsLive(h: Heap, held: multiset<Ref>, x: Ref, y: Ref)
    requires Consistent(h, held) && Edge(h, x, y)
    ensures y < |h| && h[y].Node?
  {
    hide Slots, Edge;
    assert Edge(h, x, y) ==> x < |h| && h[x].Node? && y in Refs(h[x].body) && y > 0 by { EdgeIs(h, x, y); }
    SlotsContain(h, x, y);
    assert Out(h[x])[y] > 0;
    assert Rc(h, y) + multiset{}[y] == held[y] + Slots(h)[y];
  }

  lemma EdgeIs(h: Heap, x: Ref, y: Ref)
    ensures Edge(h, x, y) <==> x < |h| && h[x].Node? && y in Refs(h[x].body) && y > 0
  {
  }

  lemma HeldIsLive(h: Heap, held: multiset<Ref>, x: Ref)
    requires Consistent(h, held) && x > 0 && held[x] > 0
    ensures x < |h| && h[x].Node?
  {
    hide Slots;
    assert Rc(h, x) + multiset{}[x] == held[x] + Slots(h)[x];
  }

  lemma {:induction false} PathIsLive(h: Heap, held: multiset<Ref>, p: seq<Ref>, i: nat)
    requires Consistent(h, held) && Path(h, p) && p[0] > 0 && held[p[0]] > 0 && i < |p|
    ensures p[i] < |h| && h[p[i]].Node?
  {
    hide Consistent, Edge;
    if i == 0 {
      HeldIsLive(h, held, p[0]);
    } else {
      var k := i - 1;
      assert EdgeAt(h, p, k);
      EdgeIsLive(h, held, p[k], p[k + 1]);
    }
  }

  /** A live object is held by a caller or is in a slot of a live object. */
  lemma LiveHasReason(h: Heap, held: multiset<Ref>, x: Ref) returns (owner: Ref)
    requires Consistent(h, held) && x < |h| && h[x].Node? && held[x] == 0
    ensures Edge(h, owner, x) && owner < |h|
  {
    hide Slots;
    assert x > 0;
    assert Rc(h, x) + multiset{}[x] == held[x] + Slots(h)[x];
    owner := SlotHasOwner(h, x);
  }

  lemma {:induction false} RankedIsKept(h: Heap, held: multiset<Ref>, rank: seq<nat>, bound: nat, x: Ref)
    requires Consistent(h, held) && Ranked(h, rank) && x < |h| && h[x].Node?
    requires forall y | 0 <= y < |h| :: rank[y] <= bound
    ensures Kept(h, held, x)
    decreases bound - rank[x]
  {
    hide Consistent, Edge, Reaches;
    NotNull(h, held, x);
    if held[x] > 0 {
      ReachesSelf(h, x);
    } else {
      var owner := LiveHasReason(h, held, x);
      assert rank[owner] > rank[x];
      EdgeIs(h, owner, x);
      RankedIsKept(h, held, rank, bound, owner);
      var y: Ref :| held[y] > 0 && y > 0 && Reaches(h, y, owner);
      ReachesNext(h, y, owner, x);
    }
  }

  lemma NotNull(h: Heap, held: multiset<Ref>, x: Ref)
    requires Consistent(h, held) && x < |h| && h[x].Node?
    ensures x > 0
  {
  }

  lemma {:induction false} SomeBound(rank: seq<nat>) returns (bound: nat)
    ensures forall y | 0 <= y < |rank| :: rank[y] <= bound
  {
    if rank == [] { bound := 0; } else {
      var b := SomeBound(rank[1..]);
      bound := if b > rank[0] then b else rank[0];
      forall y | 0 <= y < |rank| ensures rank[y] <= bound {
        if y > 0 { assert rank[y] == rank[1..][y - 1]; }
      }
    }
  }

  /** In an acyclic heap the live objects are exactly those that can be reached from the
      references that callers hold: nothing is freed too early, and nothing leaks. */
  lemma LiveIsKept(h: Heap, held: multiset<Ref>, x: Ref)
    requires Consistent(h, held) && Acyclic(h)
    ensures (x < |h| && h[x].Node?) <==> Kept(h, held, x)
  {
    hide Consistent, Edge, Ranked;
    if x < |h| && h[x].Node? {
      var rank :| Ranked(h, rank);
      RankedSize(h, rank);
      var bound := SomeBound(rank);
      RankedIsKept(h, held, rank, bound, x);
    }
    if Kept(h, held, x) {
      var y: Ref :| held[y] > 0 && y > 0 && Reaches(h, y, x);
      var p :| Path(h, p) && p[0] == y && p[|p| - 1] == x;
      PathIsLive(h, held, p, |p| - 1);
    }
  }

  lemma RankedSize(h: Heap, rank: seq<nat>)
    requires Ranked(h, rank)
    ensures |rank| == |h|
  {
  }

  // ------------------------------------------------------------ dropping references

  lemma StillRanked(h: Heap, g: Heap, rank: seq<nat>)
    requires Ranked(h, rank) && AllLater(h, g)
    ensures Ranked(g, rank)
  {
    forall x, y | 0 <= x < |g| && 0 <= y < |g| && Edge(g, x, y) ensures rank[x] > rank[y] {
      assert Later(h[x], g[x]);
      assert Edge(h, x, y);
    }
  }

  lemma StillAcyclic(h: Heap, g: Heap)
    requires Acyclic(h) && AllLater(h, g)
    ensures Acyclic(g)
  {
    hide AllLater, Ranked;
    var rank :| Ranked(h, rank);
    StillRanked(h, g, rank);
  }

  /** The paths of the later heap are those of the earlier one through what is still there. */
  lemma LaterPath(h: Heap, g: Heap, p: seq<Ref>)
    requires AllLater(h, g) && Path(g, p)
    ensures Path(h, p)
  {
    forall i | 0 <= i < |p| - 1 ensures EdgeAt(h, p, i) {
      assert EdgeAt(g, p, i);
      assert Later(h[p[i]], g[p[i]]);
    }
  }

  lemma {:induction false} EarlierPath(h: Heap, g: Heap, held: multiset<Ref>, p: seq<Ref>)
    requires AllLater(h, g) && Consistent(g, held) && Path(h, p) && p[0] > 0 && held[p[0]] > 0
    ensures Path(g, p)
    decreases |p|
  {
    hide Consistent, Edge;
    if |p| > 1 {
      var n := |p| - 2;
      var q := p[..|p| - 1];
      forall i | 0 <= i < |q| - 1 ensures EdgeAt(h, q, i) {
        assert EdgeAt(h, p, i);
      }
      EarlierPath(h, g, held, q);
      PathIsLive(g, held, q, n);
      assert EdgeAt(h, p, n);
      SameEdge(h, g, p[n], p[n + 1]);
      forall i | 0 <= i < |p| - 1 ensures EdgeAt(g, p, i) {
        if i < n { assert EdgeAt(g, q, i); }
      }
    }
  }

  lemma SameEdge(h: Heap, g: Heap, x: Ref, y: Ref)
    requires AllLater(h, g) && x < |g| && g[x].Node? && Edge(h, x, y)
    ensures Edge(g, x, y)
  {
    assert Later(h[x], g[x]);
  }

  lemma KeptLater(h: Heap, g: Heap, held: multiset<Ref>, x: Ref)
    requires AllLater(h, g) && Consistent(g, held)
    ensures Kept(h, held, x) <==> Kept(g, held, x)
  {
    hide Consistent, AllLater, Edge;
    if Kept(h, held, x) {
      var y: Ref :| held[y] > 0 && y > 0 && Reaches(h, y, x);
      var p :| Path(h, p) && p[0] == y && p[|p| - 1] == x;
      EarlierPath(h, g, held, p);
      assert Reaches(g, y, x);
    }
    if Kept(g, held, x) {
      var y: Ref :| held[y] > 0 && y > 0 && Reaches(g, y, x);
      var p :| Path(g, p) && p[0] == y && p[|p| - 1] == x;
      LaterPath(h, g, p);
      assert Reaches(h, y, x);
    }
  }

  /** Dropping references frees exactly what cannot be reached any more from the references
      that are left. */
  lemma FreedIsUnreachable(h: Heap, g: Heap, held: multiset<Ref>, x: Ref)
    requires AllLater(h, g) && Consistent(g, held) && Acyclic(h) && x < |h| && h[x].Node?
    ensures g[x].Free? <==> !Kept(h, held, x)
  {
    hide Consistent, Kept, Acyclic;
    StillAcyclic(h, g);
    LiveIsKept(g, held, x);
    KeptLater(h, g, held, x);
  }

  /** When every reference has been given up, nothing is left. */
  lemma NothingLeaks(h: Heap, held: multiset<Ref>)
    requires Consistent(h, held) && Acyclic(h) && forall x: Ref | x > 0 :: held[x] == 0
    ensures forall x | 0 <= x < |h| :: h[x].Free?
  {
    hide Consistent, Acyclic, Reaches;
    forall x | 0 <= x < |h| ensures h[x].Free? {
      LiveIsKept(h, held, x);
    }
  }

  // ------------------------------------------------------------ storing a reference

  /** What is strictly inside x. */
  ghost function Inside(h: Heap, x: Ref): iset<Ref> { iset y: Ref | y > 0 && y != x && Reaches(h, x, y) }

  lemma {:induction false} ReachedIsLive(h: Heap, held: multiset<Ref>, p: seq<Ref>, i: nat)
    requires Consistent(h, held) && Path(h, p) && p[0] < |h| && h[p[0]].Node? && i < |p|
    ensures p[i] < |h|
  {
    hide Consistent, Edge;
    if i > 0 {
      var k := i - 1;
      assert EdgeAt(h, p, k);
      EdgeIsLive(h, held, p[k], p[k + 1]);
    }
  }

  /** No way leads back from what x holds to x. */
  lemma NoReturn(h: Heap, held: multiset<Ref>, x: Ref, y: Ref)
    requires Consistent(h, held) && Acyclic(h) && x < |h| && h[x].Node? && x != y && Reaches(h, x, y)
    ensures !Edge(h, y, x)
  {
    hide Consistent, Edge, Ranked;
    if Edge(h, y, x) {
      var rank :| Ranked(h, rank);
      RankedSize(h, rank);
      var p :| Path(h, p) && p[0] == x && p[|p| - 1] == y;
      forall i | 0 <= i < |p| ensures p[i] < |h| { ReachedIsLive(h, held, p, i); }
      RankFalls(h, rank, p);
      RankedEdge(h, rank, y, x);
    }
  }

  lemma RankedEdge(h: Heap, rank: seq<nat>, x: Ref, y: Ref)
    requires Ranked(h, rank) && x < |h| && y < |h|
    ensures Edge(h, x, y) ==> rank[x] > rank[y]
  {
  }

  lemma InsideIsClosed(h: Heap, held: multiset<Ref>, x: Ref)
    requires Consistent(h, held) && Acyclic(h) && x < |h| && h[x].Node?
    ensures Closed(h, Inside(h, x))
    ensures forall r | r in Refs(h[x].body) && r > 0 :: r in Inside(h, x)
  {
    hide Consistent, Acyclic, Reaches, Refs;
    forall y, r | y in Inside(h, x) && y < |h| && h[y].Node? && r in Refs(h[y].body)
      ensures r == 0 || r in Inside(h, x)
    {
      if r > 0 {
        ReachesNext(h, x, y, r);
        NoReturn(h, held, x, y);
      }
    }
    forall r | r in Refs(h[x].body) && r > 0 ensures r in Inside(h, x) {
      ReachesSelf(h, x);
      ReachesNext(h, x, x, r);
      NoLoop(h, held, x);
    }
  }

  lemma NoLoop(h: Heap, held: multiset<Ref>, x: Ref)
    requires Acyclic(h) && x < |h|
    ensures !Edge(h, x, x)
  {
    hide Edge;
    var rank :| Ranked(h, rank);
  }

  /** One more edge, from x to val, makes no cycle if val does not contain x. */
  lemma EdgeAdded(h: Heap, g: Heap, x: Ref, val: Ref)
    requires Acyclic(h) && |g| == |h| && x < |h| && !Reaches(h, val, x)
    requires forall a, b | Edge(g, a, b) :: Edge(h, a, b) || (a == x && b == val)
    ensures Acyclic(g)
  {
    hide Edge, Reaches;
    var rank :| Ranked(h, rank);
    var lift := if val < |h| then rank[val] + 1 else 0;
    var raised := seq(|h|, y requires 0 <= y < |h| => rank[y] + if Reaches(h, y, x) then lift else 0);
    forall a, b | 0 <= a < |g| && 0 <= b < |g| && Edge(g, a, b) ensures raised[a] > raised[b] {
      if Edge(h, a, b) {
        assert rank[a] > rank[b];
        if Reaches(h, b, x) { ReachesFirst(h, a, b, x); }
      } else {
        ReachesSelf(h, x);
      }
    }
    assert Ranked(g, raised);
  }

  lemma EdgeRemoved(h: Heap, g: Heap)
    requires Acyclic(h) && |g| == |h| && forall a, b | Edge(g, a, b) :: Edge(h, a, b)
    ensures Acyclic(g)
  {
    hide Edge;
    var rank :| Ranked(h, rank);
    assert Ranked(g, rank);
  }

  lemma LaterReaches(h: Heap, g: Heap, x: Ref, y: Ref)
    requires AllLater(h, g) && Reaches(g, x, y)
    ensures Reaches(h, x, y)
  {
    hide AllLater;
    var p :| Path(g, p) && p[0] == x && p[|p| - 1] == y;
    LaterPath(h, g, p);
  }
}
