/** Facts about permutations of sequences and about finite sets. */
module Sequences {

  /** t without the element at position k. */
  function Without<T>(t: seq<T>, k: nat): seq<T>
    requires k < |t|
  {
    t[..k] + t[k + 1..]
  }

  lemma MultisetWithout<T>(t: seq<T>, k: nat)
    requires k < |t|
    ensures multiset(Without(t, k)) == multiset(t) - multiset{t[k]}
  {
    assert t == t[..k] + [t[k]] + t[k + 1..];
  }

  /** The last element of s occurs somewhere in a permutation of s. */
  lemma LastOccurs<T>(s: seq<T>, t: seq<T>) returns (k: nat)
    requires s != [] && multiset(s) == multiset(t)
    ensures k < |t| && t[k] == s[|s| - 1]
    ensures multiset(s[..|s| - 1]) == multiset(Without(t, k))
  {
    assert s[|s| - 1] in multiset(t);
    k :| 0 <= k < |t| && t[k] == s[|s| - 1];
    MultisetWithout(t, k);
    MultisetWithout(s, |s| - 1);
    assert Without(s, |s| - 1) == s[..|s| - 1];
  }

  lemma SplitLast<T>(s: seq<T>, t: seq<T>)
    requires t != []
    ensures (s + t)[..|s + t| - 1] == s + t[..|t| - 1]
    ensures (s + t)[|s + t| - 1] == t[|t| - 1]
  {
  }

  lemma SameLength<T>(s: seq<T>, t: seq<T>)
    requires multiset(s) == multiset(t)
    ensures |s| == |t|
  {
    assert |multiset(s)| == |s| && |multiset(t)| == |t|;
  }

  lemma Pick<T>(s: set<T>) returns (x: T)
    requires s != {}
    ensures x in s
  {
    x :| x in s;
  }

  lemma SubsetCount<T>(s: set<T>, t: set<T>)
    requires s <= t
    ensures |s| <= |t|
  {
    assert t == s + (t - s);
  }

  lemma RemoveOne<T>(s: set<T>, x: T)
    requires x in s
    ensures |s - {x}| == |s| - 1
    ensures |s| == 1 ==> s - {x} == {}
  {
  }

  lemma AddOne<T>(s: set<T>, x: T)
    requires x !in s
    ensures |s + {x}| == |s| + 1
  {
  }

  // ----- ascending identifiers -----

  predicate Ascending(ids: seq<nat>) {
    forall i, j :: 0 <= i < j < |ids| ==> ids[i] < ids[j]
  }

  function AsSet(ids: seq<nat>): set<nat> {
    set d | d in ids
  }

  function InsertId(x: nat, ids: seq<nat>): seq<nat> {
    if ids == [] || x < ids[0] then [x] + ids else [ids[0]] + InsertId(x, ids[1..])
  }

  lemma {:induction false} InsertAscending(x: nat, ids: seq<nat>)
    requires Ascending(ids) && x !in ids
    ensures Ascending(InsertId(x, ids))
    ensures forall d :: d in InsertId(x, ids) <==> d == x || d in ids
  {
    if ids != [] && !(x < ids[0]) {
      InsertAscending(x, ids[1..]);
      var rest := InsertId(x, ids[1..]);
      forall j | 0 <= j < |rest|
        ensures ids[0] < rest[j]
      {
        assert rest[j] in rest;
      }
    }
  }

  /** The elements of a set in ascending order. */
  method SortedUuids(ids: set<nat>) returns (sorted: seq<nat>)
    ensures Ascending(sorted) && forall d :: d in sorted <==> d in ids
  {
    sorted := [];
    var rest := ids;
    while rest != {}
      invariant rest <= ids
      invariant Ascending(sorted) && forall d :: d in sorted <==> d in ids - rest
      decreases |rest|
    {
      var d: nat :| d in rest;
      rest := rest - {d};
      InsertAscending(d, sorted);
      sorted := InsertId(d, sorted);
    }
  }

  ghost predicate IsLeast(m: nat, s: set<nat>) {
    m in s && forall x :: x in s ==> m <= x
  }

  lemma {:induction false} Least(s: set<nat>) returns (m: nat)
    requires s != {}
    ensures IsLeast(m, s)
    decreases |s|
  {
    m :| m in s;
    var rest := s - {m};
    if rest != {} {
      var r := Least(rest);
      var first := m;
      m := if r < first then r else first;
      forall x | x in s
        ensures m <= x
      {
        assert x == first || x in rest;
      }
    } else {
      forall x | x in s
        ensures x == m
      {
        assert x !in rest;
      }
    }
  }

  ghost function SortedIds(s: set<nat>): (ids: seq<nat>)
    ensures Ascending(ids)
    ensures forall d :: d in ids <==> d in s
    decreases |s|
  {
    if s == {} then []
    else
      assert exists m :: IsLeast(m, s) by { var m := Least(s); }
      var m :| IsLeast(m, s);
      [m] + SortedIds(s - {m})
  }
}
