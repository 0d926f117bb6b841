/** Lists of matches and the loops that merge and filter them. */
module Matches {
  import opened Fingerprints
  import opened Likeness
  import opened Tables

  /** One row of a search result. */
  datatype Match = Match(source: Id, hit: Hit)

  ghost predicate Distinct(ms: seq<Match>) {
    forall i, j :: 0 <= i < j < |ms| ==> ms[i].source != ms[j].source
  }

  /** The hits a list stands for. */
  function Index(ms: seq<Match>): Hits {
    if ms == [] then map[] else Index(ms[..|ms| - 1])[ms[|ms| - 1].source := ms[|ms| - 1].hit]
  }

  lemma {:induction false} IndexKeys(ms: seq<Match>, y: Id)
    ensures y in Index(ms) <==> exists k :: 0 <= k < |ms| && ms[k].source == y
  {
    if ms != [] {
      var front := ms[..|ms| - 1];
      IndexKeys(front, y);
      if y in Index(front) {
        var k :| 0 <= k < |front| && front[k].source == y;
        assert ms[k].source == y;
      } else if y == ms[|ms| - 1].source {
        assert ms[|ms| - 1].source == y;
      } else if k :| 0 <= k < |ms| && ms[k].source == y {
        assert front[k].source == y;
      }
    }
  }

  lemma {:induction false} IndexAt(ms: seq<Match>, k: nat)
    requires Distinct(ms) && k < |ms|
    ensures ms[k].source in Index(ms) && Index(ms)[ms[k].source] == ms[k].hit
  {
    if k < |ms| - 1 {
      IndexAt(ms[..|ms| - 1], k);
    }
  }

  lemma IndexAppend(ms: seq<Match>, m: Match)
    ensures Index(ms + [m]) == Index(ms)[m.source := m.hit]
  {
  }

  lemma IndexPrefix(ms: seq<Match>, i: nat)
    requires i < |ms|
    ensures Index(ms[..i + 1]) == Index(ms[..i])[ms[i].source := ms[i].hit]
  {
    assert ms[..i + 1][..i] == ms[..i];
  }

  lemma {:induction false} IndexReplace(ms: seq<Match>, k: nat, m: Match)
    requires Distinct(ms) && k < |ms| && m.source == ms[k].source
    ensures Distinct(ms[k := m]) && Index(ms[k := m]) == Index(ms)[m.source := m.hit]
  {
    var after, last := ms[k := m], |ms| - 1;
    if k == last {
      assert after[..last] == ms[..last];
    } else {
      assert after[..last] == ms[..last][k := m];
      IndexReplace(ms[..last], k, m);
    }
  }

  // ----- merging -----

  /** A match takes the place of an earlier one only with a strictly higher score. */
  function Better(hits: Hits, m: Match): Hits {
    if m.source in hits && m.hit.score <= hits[m.source].score then hits else hits[m.source := m.hit]
  }

  function MergeAll(hits: Hits, src: seq<Match>): Hits {
    if src == [] then hits else Better(MergeAll(hits, src[..|src| - 1]), src[|src| - 1])
  }

  /** Merging a search result is the merge of the hits it stands for. */
  lemma {:induction false} MergeAllIsMerge(hits: Hits, src: seq<Match>)
    requires Distinct(src)
    ensures MergeAll(hits, src) == Merge(hits, Index(src))
  {
    if src == [] {
      assert Merge(hits, map[]) == hits;
    } else {
      var front, last := src[..|src| - 1], src[|src| - 1];
      MergeAllIsMerge(hits, front);
      IndexKeys(front, last.source);
    }
  }

  /** Every source offered gets one entry, and it is an offer no other one beats. */
  lemma {:induction false} MergeAllIsBest(hits: Hits, src: seq<Match>, y: Id)
    ensures y in MergeAll(hits, src) <==> y in hits || exists k :: 0 <= k < |src| && src[k].source == y
    ensures y in MergeAll(hits, src) ==>
              var kept := MergeAll(hits, src)[y];
              && ((y in hits && kept == hits[y]) || Match(y, kept) in src)
              && (y in hits ==> hits[y].score <= kept.score)
              && (forall k :: 0 <= k < |src| && src[k].source == y ==> src[k].hit.score <= kept.score)
  {
    if src != [] {
      var front, last := src[..|src| - 1], src[|src| - 1];
      MergeAllIsBest(hits, front, y);
      assert src == front + [last];
      assert last == Match(last.source, last.hit) && last in src;
      assert forall k :: 0 <= k < |front| ==> front[k] == src[k];
    }
  }

  ghost predicate Positions(idx: map<Id, int>, ms: seq<Match>) {
    && (forall i :: 0 <= i < |ms| ==> ms[i].source in idx && idx[ms[i].source] == i)
    && (forall y :: y in idx ==> 0 <= idx[y] < |ms| && ms[idx[y]].source == y)
  }

  lemma PositionsDistinct(idx: map<Id, int>, ms: seq<Match>)
    requires Positions(idx, ms)
    ensures Distinct(ms)
  {
  }

  lemma Known(idx: map<Id, int>, out: seq<Match>, m: Match)
    requires Positions(idx, out) && m.source in idx
    ensures var at := idx[m.source];
            && m.source in Index(out) && Index(out)[m.source] == out[at].hit
            && Positions(idx, out[at := m]) && Index(out[at := m]) == Index(out)[m.source := m.hit]
  {
    PositionsDistinct(idx, out);
    IndexAt(out, idx[m.source]);
    IndexReplace(out, idx[m.source], m);
  }

  lemma Unknown(idx: map<Id, int>, out: seq<Match>, m: Match)
    requires Positions(idx, out) && m.source !in idx
    ensures m.source !in Index(out)
    ensures Positions(idx[m.source := |out|], out + [m]) && Index(out + [m]) == Index(out)[m.source := m.hit]
  {
    IndexKeys(out, m.source);
    IndexAppend(out, m);
  }

  method MergeMatches(dst: seq<Match>, src: seq<Match>) returns (out: seq<Match>)
    requires Distinct(dst)
    ensures Distinct(out) && Index(out) == MergeAll(Index(dst), src)
  {
    out := dst;
    if |src| == 0 {
      return;
    }
    var idx: map<Id, int> := Locate(dst);
    for i := 0 to |src|
      invariant Positions(idx, out)
      invariant Index(out) == MergeAll(Index(dst), src[..i])
    {
      var m := src[i];
      assert src[..i + 1][..i] == src[..i];
      if m.source in idx {
        Known(idx, out, m);
        if m.hit.score > out[idx[m.source]].hit.score {
          out := out[idx[m.source] := m];
        }
      } else {
        Unknown(idx, out, m);
        idx := idx[m.source := |out|];
        out := out + [m];
      }
    }
    assert src[..|src|] == src;
    PositionsDistinct(idx, out);
  }

  method Locate(ms: seq<Match>) returns (idx: map<Id, int>)
    requires Distinct(ms)
    ensures Positions(idx, ms)
  {
    idx := map[];
    for i := 0 to |ms|
      invariant Positions(idx, ms[..i])
    {
      idx := idx[ms[i].source := i];
    }
    assert ms[..|ms|] == ms;
  }

  // ----- filtering -----

  function Only(hits: Hits, alive: set<Id>): Hits {
    map y | y in hits && y in alive :: hits[y]
  }

  /** Keeping some of a list: what was kept so far, and the next one. */
  lemma KeepNext(ms: seq<Match>, i: nat, out: seq<Match>)
    requires Distinct(ms) && i < |ms| && Distinct(out) && Index(out).Keys <= Index(ms[..i]).Keys
    ensures ms[i].source !in Index(ms[..i])
    ensures Index(ms[..i + 1]) == Index(ms[..i])[ms[i].source := ms[i].hit]
    ensures Distinct(out + [ms[i]]) && Index(out + [ms[i]]) == Index(out)[ms[i].source := ms[i].hit]
  {
    IndexKeys(ms[..i], ms[i].source);
    IndexPrefix(ms, i);
    IndexAppend(out, ms[i]);
    forall k | 0 <= k < |out|
      ensures out[k].source != ms[i].source
    {
      IndexAt(out, k);
    }
  }

  lemma OnlyNext(hits: Hits, alive: set<Id>, m: Match)
    requires m.source !in hits
    ensures Only(hits[m.source := m.hit], alive) ==
            if m.source in alive then Only(hits, alive)[m.source := m.hit] else Only(hits, alive)
  {
  }

  /** Matches whose source row is still there. */
  method LivingMatches(ms: seq<Match>, alive: set<Id>) returns (out: seq<Match>)
    requires Distinct(ms)
    ensures Distinct(out) && Index(out) == Only(Index(ms), alive)
  {
    out := [];
    for i := 0 to |ms|
      invariant Distinct(out) && Index(out) == Only(Index(ms[..i]), alive)
    {
      KeepNext(ms, i, out);
      OnlyNext(Index(ms[..i]), alive, ms[i]);
      if ms[i].source in alive {
        out := out + [ms[i]];
      }
    }
    assert ms[..|ms|] == ms;
  }

  /** An exact hit from 99.9 on, any other one from 98 on where the pages agree. */
  predicate Passes(fp: Fingerprint, hit: Hit) {
    if hit.kind == Exact then hit.score >= 99.9 else hit.score >= 98.0 && PagesAgree(fp.pages, hit.pages)
  }

  lemma ConfidentNext(fp: Fingerprint, hits: Hits, m: Match)
    requires m.source !in hits
    ensures Confident(fp, hits[m.source := m.hit]) ==
            if IsDuplicate(m.hit.kind, m.hit.score, fp.pages, m.hit.pages) then Confident(fp, hits)[m.source := m.hit]
            else Confident(fp, hits)
  {
  }

  method ConfidentMatches(fp: Fingerprint, ms: seq<Match>) returns (out: seq<Match>)
    requires Distinct(ms)
    ensures Distinct(out) && Index(out) == Confident(fp, Index(ms))
    ensures forall y :: y in Index(out) ==> y in Index(ms) && Index(out)[y] == Index(ms)[y]
    ensures forall y :: y in Index(ms) ==> (y in Index(out) <==> Passes(fp, Index(ms)[y]))
  {
    forall y | y in Index(ms)
      ensures IsDuplicate(Index(ms)[y].kind, Index(ms)[y].score, fp.pages, Index(ms)[y].pages) <==> Passes(fp, Index(ms)[y])
    {
      PagesRule(fp.pages, Index(ms)[y].pages);
    }
    out := [];
    for i := 0 to |ms|
      invariant Distinct(out) && Index(out) == Confident(fp, Index(ms[..i]))
    {
      var m := ms[i];
      KeepNext(ms, i, out);
      ConfidentNext(fp, Index(ms[..i]), m);
      if IsDuplicate(m.hit.kind, m.hit.score, fp.pages, m.hit.pages) {
        out := out + [m];
      }
    }
    assert ms[..|ms|] == ms;
  }

  // ----- the new source's score and role -----

  method Best(ms: seq<Match>) returns (best: real)
    requires ms != [] && Distinct(ms)
    ensures IsBest(Index(ms), best)
  {
    best := ms[0].hit.score;
    assert Index(ms[..1]) == map[ms[0].source := ms[0].hit] by {
      IndexPrefix(ms, 0);
    }
    assert ms[0].source in Index(ms[..1]);
    for i := 1 to |ms|
      invariant IsBest(Index(ms[..i]), best)
    {
      IndexPrefix(ms, i);
      IndexKeys(ms[..i], ms[i].source);
      BestNext(Index(ms[..i]), best, ms[i]);
      if ms[i].hit.score > best {
        best := ms[i].hit.score;
      }
    }
    assert ms[..|ms|] == ms;
  }

  lemma BestNext(hits: Hits, best: real, m: Match)
    requires IsBest(hits, best) && m.source !in hits
    ensures IsBest(hits[m.source := m.hit], if m.hit.score > best then m.hit.score else best)
  {
    var after := hits[m.source := m.hit];
    if m.hit.score > best {
      assert m.source in after && after[m.source].score == m.hit.score;
    } else {
      var y :| y in hits && hits[y].score == best;
      assert y in after && after[y].score == best;
    }
  }

  /** The new source is a duplicate as soon as one match does not come after it. */
  method SourceRole(id: Id, at: int, ms: seq<Match>) returns (role: Role)
    requires ms != [] && Distinct(ms)
    ensures role == RoleAgainst(id, at, Index(ms))
  {
    role := Original;
    IndexAt(ms, 0);
    for i := 0 to |ms|
      invariant role == Original
      invariant forall k :: 0 <= k < i ==> UploadedFirst(id, at, ms[k].source, ms[k].hit.uploaded)
    {
      if !UploadedFirst(id, at, ms[i].source, ms[i].hit.uploaded) {
        IndexAt(ms, i);
        return Duplicate;
      }
    }
    forall y | y in Index(ms)
      ensures UploadedFirst(id, at, y, Index(ms)[y].uploaded)
    {
      IndexKeys(ms, y);
      var k :| 0 <= k < |ms| && ms[k].source == y;
      IndexAt(ms, k);
    }
  }
}
