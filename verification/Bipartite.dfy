/** Matchings between two numbered sides: a matching is a largest one exactly when no
    augmenting path leads out of it. */
module Bipartite {
  import opened Sequences

  type Edge = (nat, nat)

  /** One-to-one pairs taken from the graph. */
  ghost predicate Matching(g: set<Edge>, m: set<Edge>) {
    m <= g && forall e, f :: e in m && f in m && e != f ==> e.0 != f.0 && e.1 != f.1
  }

  ghost predicate LeftFree(m: set<Edge>, i: nat) {
    forall e :: e in m ==> e.0 != i
  }

  ghost predicate RightFree(m: set<Edge>, j: nat) {
    forall e :: e in m ==> e.1 != j
  }

  /** A largest matching of the graph. */
  ghost predicate Largest(g: set<Edge>, m: set<Edge>) {
    forall n :: Matching(g, n) ==> |n| <= |m|
  }

  // ----- covers -----

  lemma {:induction false} LeftProjection(m: set<Edge>, ends: set<nat>)
    requires forall e :: e in m ==> e.0 in ends
    requires forall e, f :: e in m && f in m && e != f ==> e.0 != f.0
    ensures |m| <= |ends|
    decreases m
  {
    if m != {} {
      var e :| e in m;
      LeftProjection(m - {e}, ends - {e.0});
    }
  }

  lemma {:induction false} RightProjection(m: set<Edge>, ends: set<nat>)
    requires forall e :: e in m ==> e.1 in ends
    requires forall e, f :: e in m && f in m && e != f ==> e.1 != f.1
    ensures |m| <= |ends|
    decreases m
  {
    if m != {} {
      var e :| e in m;
      RightProjection(m - {e}, ends - {e.1});
    }
  }

  /** A matching every pair of which touches one of two sets is no larger than both. */
  lemma CoveredMatching(g: set<Edge>, m: set<Edge>, lefts: set<nat>, rights: set<nat>)
    requires Matching(g, m)
    requires forall e :: e in m ==> e.0 in lefts || e.1 in rights
    ensures |m| <= |lefts| + |rights|
  {
    var one := set e | e in m && e.0 in lefts;
    var two := m - one;
    LeftProjection(one, lefts);
    RightProjection(two, rights);
    assert m == one + two;
  }

  function Lefts(m: set<Edge>): set<nat> {
    set e | e in m :: e.0
  }

  function Rights(m: set<Edge>): set<nat> {
    set e | e in m :: e.1
  }

  lemma {:induction false} LeftEnds(m: set<Edge>)
    ensures |Lefts(m)| <= |m|
    decreases m
  {
    if m != {} {
      var f :| f in m;
      LeftEnds(m - {f});
      assert Lefts(m) == Lefts(m - {f}) + {f.0};
    }
  }

  lemma {:induction false} RightEnds(m: set<Edge>)
    ensures |Rights(m)| <= |m|
    decreases m
  {
    if m != {} {
      var f :| f in m;
      RightEnds(m - {f});
      assert Rights(m) == Rights(m - {f}) + {f.1};
    }
  }

  // ----- alternating trails -----

  /** Edges to take, each left end being matched to the right end of the edge before; the
      first left end is free, and none occurs twice. */
  ghost predicate Trail(g: set<Edge>, m: set<Edge>, p: seq<Edge>) {
    && (forall t :: 0 <= t < |p| ==> p[t] in g)
    && (p != [] ==> LeftFree(m, p[0].0))
    && (forall t :: 0 < t < |p| ==> (p[t].0, p[t - 1].1) in m)
    && (forall s, t :: 0 <= s < t < |p| ==> p[s].0 != p[t].0)
  }

  /** A trail to a free right end: exchanging along it gains one pair. */
  ghost predicate Augmenting(g: set<Edge>, m: set<Edge>, p: seq<Edge>) {
    p != [] && Trail(g, m, p) && RightFree(m, p[|p| - 1].1)
  }

  /** Replacing the pair of a left end by one with a free right end. */
  lemma Exchange(g: set<Edge>, m: set<Edge>, e: Edge, f: Edge)
    requires Matching(g, m) && e in g && f in m && e.0 == f.0 && RightFree(m, e.1)
    ensures Matching(g, m - {f} + {e}) && |m - {f} + {e}| == |m|
    ensures RightFree(m - {f} + {e}, f.1)
  {
    var rest := m - {f};
    var n := rest + {e};
    assert e !in m;
    forall x, y | x in n && y in n && x != y
      ensures x.0 != y.0 && x.1 != y.1
    {
      assert x == e || (x in m && x != f);
      assert y == e || (y in m && y != f);
    }
    RemoveOne(m, f);
    AddOne(rest, e);
    forall x | x in n
      ensures x.1 != f.1
    {
      assert x == e || (x in m && x != f);
    }
  }

  /** Exchanging the last step of an augmenting path leaves a shorter one. */
  lemma ExchangeLast(g: set<Edge>, m: set<Edge>, p: seq<Edge>) returns (n: set<Edge>)
    requires Matching(g, m) && Augmenting(g, m, p) && |p| > 1
    ensures Matching(g, n) && |n| == |m| && Augmenting(g, n, p[..|p| - 1])
  {
    var k := |p| - 1;
    var f, q := (p[k].0, p[k - 1].1), p[..k];
    assert f in m;
    Exchange(g, m, p[k], f);
    n := m - {f} + {p[k]};
    forall t | 0 < t < |q|
      ensures (q[t].0, q[t - 1].1) in n
    {
      assert (p[t].0, p[t - 1].1) in m && p[t].0 != p[k].0;
    }
  }

  /** An augmenting path leads to a larger matching. */
  lemma {:induction false} Augment(g: set<Edge>, m: set<Edge>, p: seq<Edge>) returns (n: set<Edge>)
    requires Matching(g, m) && Augmenting(g, m, p)
    ensures Matching(g, n) && |n| == |m| + 1
    decreases |p|
  {
    if |p| == 1 {
      assert p[0] !in m;
      n := m + {p[0]};
      AddOne(m, p[0]);
    } else {
      var next := ExchangeLast(g, m, p);
      n := Augment(g, next, p[..|p| - 1]);
    }
  }

  // ----- reachable left ends -----

  /** A trail that arrives at a left end it has not visited. */
  ghost predicate Reaches(g: set<Edge>, m: set<Edge>, q: seq<Edge>, i: nat) {
    && Trail(g, m, q)
    && (if q == [] then LeftFree(m, i) else (i, q[|q| - 1].1) in m)
    && (forall t :: 0 <= t < |q| ==> q[t].0 != i)
  }

  ghost predicate Reached(g: set<Edge>, m: set<Edge>, i: nat) {
    exists q :: Reaches(g, m, q, i)
  }

  ghost predicate NoneAugmenting(g: set<Edge>, m: set<Edge>) {
    forall p :: !Augmenting(g, m, p)
  }

  lemma TrailPrefix(g: set<Edge>, m: set<Edge>, q: seq<Edge>, t: nat)
    requires Trail(g, m, q) && t < |q|
    ensures Reaches(g, m, q[..t], q[t].0)
  {
    if t > 0 {
      assert (q[t].0, q[t - 1].1) in m;
    }
  }

  lemma TrailExtended(g: set<Edge>, m: set<Edge>, q: seq<Edge>, i: nat, j: nat)
    requires Reaches(g, m, q, i) && (i, j) in g
    ensures Trail(g, m, q + [(i, j)])
  {
    var p := q + [(i, j)];
    forall t | 0 < t < |p|
      ensures (p[t].0, p[t - 1].1) in m
    {
      assert t < |q| ==> (q[t].0, q[t - 1].1) in m;
    }
  }

  /** Every neighbour of a reached left end is matched to a reached left end. */
  lemma Closed(g: set<Edge>, m: set<Edge>, i: nat, j: nat) returns (k: nat)
    requires Matching(g, m) && NoneAugmenting(g, m) && Reached(g, m, i) && (i, j) in g
    ensures (k, j) in m && Reached(g, m, k)
  {
    var q: seq<Edge> :| Reaches(g, m, q, i);
    var p := q + [(i, j)];
    TrailExtended(g, m, q, i, j);
    assert !Augmenting(g, m, p);
    var e :| e in m && e.1 == j;
    k := e.0;
    assert e == (k, j);
    if t: nat :| t < |q| && q[t].0 == k {
      TrailPrefix(g, m, q, t);
      assert Reaches(g, m, q[..t], k);
    } else if k != i {
      assert Reaches(g, m, p, k);
    }
  }

  /** Without an augmenting path, the matched left ends that are not reached and the
      partners of those that are cover the graph. */
  lemma CoverOfReached(g: set<Edge>, m: set<Edge>, reached: set<Edge>, e: Edge)
    requires Matching(g, m) && NoneAugmenting(g, m) && e in g
    requires forall f :: f in reached <==> f in m && Reached(g, m, f.0)
    ensures e.0 in Lefts(m - reached) || e.1 in Rights(reached)
  {
    if Reached(g, m, e.0) {
      var k := Closed(g, m, e.0, e.1);
      assert (k, e.1) in reached;
    } else {
      assert !Reaches(g, m, [], e.0);
      var f :| f in m && f.0 == e.0;
      assert f in m - reached;
    }
  }

  lemma NoneAugmentingIsLargest(g: set<Edge>, m: set<Edge>)
    requires Matching(g, m) && NoneAugmenting(g, m)
    ensures Largest(g, m)
  {
    var reached := set e | e in m && Reached(g, m, e.0);
    forall e: Edge | e in g
      ensures e.0 in Lefts(m - reached) || e.1 in Rights(reached)
    {
      CoverOfReached(g, m, reached, e);
    }
    CoverIsLargest(g, m, reached);
  }

  /** Splitting a matching into left and right ends that cover the graph proves it largest. */
  lemma CoverIsLargest(g: set<Edge>, m: set<Edge>, part: set<Edge>)
    requires part <= m && forall e: Edge :: e in g ==> e.0 in Lefts(m - part) || e.1 in Rights(part)
    ensures Largest(g, m)
  {
    LeftEnds(m - part);
    RightEnds(part);
    assert m == (m - part) + part;
    forall n | Matching(g, n)
      ensures |n| <= |m|
    {
      CoveredMatching(g, n, Lefts(m - part), Rights(part));
    }
  }

  /** A matching is a largest one if and only if no augmenting path leads out of it. */
  lemma LargestIffNoneAugmenting(g: set<Edge>, m: set<Edge>)
    requires Matching(g, m)
    ensures Largest(g, m) <==> NoneAugmenting(g, m)
  {
    if NoneAugmenting(g, m) {
      NoneAugmentingIsLargest(g, m);
    } else {
      var p: seq<Edge> :| Augmenting(g, m, p);
      var n := Augment(g, m, p);
    }
  }

  // ----- a condition on the graph alone -----

  /** Whenever two left ends share a neighbour, they share all of them. */
  ghost predicate Straight(g: set<Edge>) {
    forall e, f, h :: e in g && f in g && h in g && e.1 == f.1 && f.0 == h.0 ==> (e.0, h.1) in g
  }

  ghost predicate Maximal(g: set<Edge>, m: set<Edge>) {
    forall e :: e in g ==> !LeftFree(m, e.0) || !RightFree(m, e.1)
  }

  lemma ShortCut(g: set<Edge>, m: set<Edge>, p: seq<Edge>)
    requires Straight(g) && Matching(g, m) && Augmenting(g, m, p) && |p| > 1
    ensures Augmenting(g, m, [(p[0].0, p[1].1)] + p[2..])
  {
    var q := [(p[0].0, p[1].1)] + p[2..];
    assert (p[1].0, p[0].1) in m;
    forall t | 0 < t < |q|
      ensures (q[t].0, q[t - 1].1) in m
    {
      assert (p[t + 1].0, p[t].1) in m;
    }
  }

  lemma {:induction false} StraightHasNone(g: set<Edge>, m: set<Edge>, p: seq<Edge>)
    requires Straight(g) && Matching(g, m) && Maximal(g, m)
    ensures !Augmenting(g, m, p)
    decreases |p|
  {
    if |p| == 1 {
      assert p[0] in g ==> !LeftFree(m, p[0].0) || !RightFree(m, p[0].1);
    } else if Augmenting(g, m, p) {
      ShortCut(g, m, p);
      StraightHasNone(g, m, [(p[0].0, p[1].1)] + p[2..]);
    }
  }

  /** On a straight graph every maximal matching is a largest one. */
  lemma StraightIsLargest(g: set<Edge>, m: set<Edge>)
    requires Straight(g) && Matching(g, m) && Maximal(g, m)
    ensures Largest(g, m)
  {
    forall p
      ensures !Augmenting(g, m, p)
    {
      StraightHasNone(g, m, p);
    }
    NoneAugmentingIsLargest(g, m);
  }

  /** A maximal matching is at least half as large as any other. */
  lemma MaximalIsHalf(g: set<Edge>, m: set<Edge>, n: set<Edge>)
    requires Maximal(g, m) && Matching(g, n)
    ensures |n| <= 2 * |m|
  {
    forall e: Edge | e in n
      ensures e.0 in Lefts(m) || e.1 in Rights(m)
    {
      assert e in g;
    }
    CoveredMatching(g, n, Lefts(m), Rights(m));
    LeftEnds(m);
    RightEnds(m);
  }
}
