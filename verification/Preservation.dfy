/** The remaining transactions keep the invariants too. */
module Preservation {
  import opened Invariants
  import opened Options
  import opened Searches
  import opened Tables
  import N = Notes

  /** The same sources with the same pairs and index; only release flags may differ. */
  ghost predicate SameMatches(db: Db, after: Db) {
    && after.pairs == db.pairs && after.lsh == db.lsh && after.sources.Keys == db.sources.Keys
    && (forall s :: s in db.sources ==>
                      after.sources[s] == db.sources[s].(released := after.sources[s].released))
  }

  lemma SameMatchesOk(db: Db, after: Db)
    requires SameMatches(db, after)
    ensures PairsOk(db) ==> PairsOk(after)
    ensures RolesOk(db) ==> RolesOk(after)
    ensures FpsOk(db) ==> FpsOk(after)
    ensures LshOk(db) ==> LshOk(after)
  {
    forall a: Id, b: Id
      ensures Paired(after, a, b) <==> Paired(db, a, b)
      ensures Paired(db, a, b) ==> PairOf(after, a, b) == PairOf(db, a, b)
    {
    }
    forall s
      ensures Hashed(after, s) <==> Hashed(db, s)
      ensures Hashed(db, s) ==> FpOf(after, s) == FpOf(db, s)
    {
    }
    if RolesOk(db) {
      forall a | Hashed(after, a)
        ensures RoleOk(after, a)
      {
        assert RoleOk(db, a);
        forall b | Paired(after, a, b)
          ensures Paired(db, a, b) && Before(after, b, a) == Before(db, b, a)
        {
        }
      }
    }
  }

  // ----- inserting sources -----

  /** `after` is `db` with new unhashed files under d, whose row now says processing; with
      no new file, an older one of d is still unhashed. */
  ghost predicate Inserts(db: Db, after: Db, d: Id, files: map<Id, int>) {
    && (files != map[] || HasUnhashed(db.sources, d)) && (forall f :: f in files ==> f !in db.sources)
    && d in after.docs && after.docs[d].status == Processing && N.Settled(after.docs[d].note)
    && (d in db.docs ==> after.docs[d].trusted == db.docs[d].trusted)
    && after == db.(docs := db.docs[d := after.docs[d]], sources := db.sources + NewSources(d, files))
  }

  lemma InsertFrame(db: Db, after: Db, d: Id, files: map<Id, int>)
    requires Inserts(db, after, d, files)
    ensures forall s :: s in after.sources <==> s in db.sources || s in files
    ensures forall s :: s in db.sources ==> after.sources[s] == db.sources[s]
    ensures forall s :: s in files ==> after.sources[s] == Source(d, files[s], None, Unique, None, true)
    ensures forall s :: Hashed(after, s) <==> Hashed(db, s)
  {
  }

  lemma InsertPairsOk(db: Db, after: Db, d: Id, files: map<Id, int>)
    requires Inserts(db, after, d, files) && PairsOk(db)
    ensures PairsOk(after)
  {
  }

  lemma InsertRolesOk(db: Db, after: Db, d: Id, files: map<Id, int>)
    requires Inserts(db, after, d, files) && RolesOk(db)
    ensures RolesOk(after)
  {
    InsertFrame(db, after, d, files);
    forall a | Hashed(after, a)
      ensures RoleOk(after, a)
    {
      assert RoleOk(db, a);
      forall b | Paired(after, a, b)
        ensures Paired(db, a, b) && PairOf(after, a, b) == PairOf(db, a, b) && Before(after, b, a) == Before(db, b, a)
      {
      }
    }
  }

  lemma InsertStatusOk(db: Db, after: Db, d: Id, files: map<Id, int>)
    requires Inserts(db, after, d, files) && StatusOk(db)
    ensures StatusOk(after)
  {
    InsertFrame(db, after, d, files);
    forall e | e in after.docs
      ensures if after.docs[e].status == Rejected then SourcesOf(after, e) == {}
              else after.docs[e].status == Derived(after.sources, e)
    {
      if e == d {
        if files != map[] {
          var f :| f in files;
          assert f in after.sources && after.sources[f].doc == d && after.sources[f].fp.None?;
        } else {
          var s :| s in db.sources && db.sources[s].doc == d && db.sources[s].fp.None?;
          assert s in after.sources && after.sources[s] == db.sources[s];
        }
      } else {
        assert SourcesOf(after, e) == SourcesOf(db, e);
        DerivedFrame(db.sources, after.sources, e);
      }
    }
  }

  lemma InsertRowsOk(db: Db, after: Db, d: Id, files: map<Id, int>)
    requires Inserts(db, after, d, files) && DocsOk(db)
    requires FpsOk(db) && LshOk(db) && FreshOk(db) && TrustOk(db) && HeldOk(db)
    ensures DocsOk(after) && FpsOk(after) && LshOk(after) && FreshOk(after) && TrustOk(after) && HeldOk(after)
  {
    InsertFrame(db, after, d, files);
  }

  lemma InsertInv(db: Db, after: Db, d: Id, files: map<Id, int>)
    requires Inserts(db, after, d, files) && Inv(db)
    ensures Inv(after)
  {
    InsertFrame(db, after, d, files);
    InsertPairsOk(db, after, d, files);
    InsertRolesOk(db, after, d, files);
    InsertStatusOk(db, after, d, files);
    InsertRowsOk(db, after, d, files);
  }

  lemma CreateKeeps(db: Db, d: Id, erp: string, trusted: bool, files: map<Id, int>, maxSources: int, notes: seq<string>)
    requires Inv(db)
    ensures Inv(Create(db, d, erp, trusted, files, maxSources, notes).db)
  {
    var r := Create(db, d, erp, trusted, files, maxSources, notes);
    if r.outcome == Done {
      N.LogSettled(notes);
      InsertInv(db, r.db, d, files);
    }
  }

  /** Inserting an empty list is the one way to break the invariant: within the limit, it
      sets a document without unhashed files to processing. */
  lemma InsertSourcesKeepsIff(db: Db, d: Id, files: map<Id, int>, maxSources: int, note: string)
    requires Inv(db)
    ensures var most := if maxSources < 1 then 4 else maxSources;
            Inv(InsertSources(db, d, files, maxSources, note).db) <==>
            (files == map[] && d in db.docs && |SourcesOf(db, d)| <= most ==> HasUnhashed(db.sources, d))
  {
    var r := InsertSources(db, d, files, maxSources, note);
    if files == map[] {
      EmptyIsInserted(db, d, files, maxSources, note);
    }
    if r.outcome == Done {
      if files != map[] || HasUnhashed(db.sources, d) {
        DoneInserts(db, d, files, maxSources, note);
        InsertInv(db, r.db, d, files);
      } else {
        NothingUnhashed(db, r.db, d, files);
      }
    }
  }

  /** An empty list is accepted within the limit, and only there. */
  lemma EmptyIsInserted(db: Db, d: Id, files: map<Id, int>, maxSources: int, note: string)
    requires files == map[]
    ensures var most := if maxSources < 1 then 4 else maxSources;
            InsertSources(db, d, files, maxSources, note).outcome == Done <==>
            d in db.docs && |SourcesOf(db, d)| <= most
  {
  }

  lemma DoneInserts(db: Db, d: Id, files: map<Id, int>, maxSources: int, note: string)
    requires InsertSources(db, d, files, maxSources, note).outcome == Done && NotesOk(db)
    requires files != map[] || HasUnhashed(db.sources, d)
    ensures Inserts(db, InsertSources(db, d, files, maxSources, note).db, d, files)
  {
    N.MergeExtends(db.docs[d].note, N.Clamp(note));
  }

  lemma NothingUnhashed(db: Db, after: Db, d: Id, files: map<Id, int>)
    requires files == map[] && after.sources == db.sources + NewSources(d, files)
    requires !HasUnhashed(db.sources, d) && d in after.docs && after.docs[d].status == Processing
    ensures !StatusOk(after)
  {
    assert after.sources == db.sources;
  }

  lemma AddSourcesKeeps(db: Db, d: Id, files: map<Id, int>, maxSources: int, note: string)
    requires Inv(db)
    ensures Inv(AddSources(db, d, files, maxSources, note).db)
  {
    InsertSourcesKeepsIff(db, d, files, maxSources, note);
  }

  // ----- releasing sources -----

  lemma ReleaseFrame(sources: map<Id, Source>, d: Id)
    ensures var after := Released(sources, d);
            && after.Keys == sources.Keys
            && (forall s :: s in sources ==>
                              && after[s] == sources[s].(released := after[s].released)
                              && (sources[s].doc != d ==> after[s] == sources[s])
                              && (sources[s].doc == d ==> after[s].released))
  {
  }

  lemma ApproveStatusOk(db: Db, after: Db, d: Id)
    requires StatusOk(db) && Approve(db, d) == Reply(Done, after)
    ensures StatusOk(after)
  {
    ReleaseFrame(db.sources, d);
    forall e | e in after.docs
      ensures if after.docs[e].status == Rejected then SourcesOf(after, e) == {}
              else after.docs[e].status == Derived(after.sources, e)
    {
      assert SourcesOf(after, e) == SourcesOf(db, e);
      if e != d {
        DerivedFrame(db.sources, after.sources, e);
      }
    }
  }

  lemma ApproveRowsOk(db: Db, after: Db, d: Id)
    requires Approve(db, d) == Reply(Done, after)
    requires DocsOk(db) && FreshOk(db) && TrustOk(db) && HeldOk(db) && SimilarOk(db) && NotesOk(db)
    ensures DocsOk(after) && FreshOk(after) && TrustOk(after) && HeldOk(after) && SimilarOk(after) && NotesOk(after)
  {
    ReleaseFrame(db.sources, d);
  }

  lemma ApproveMatches(db: Db, after: Db, d: Id)
    requires Approve(db, d) == Reply(Done, after)
    ensures SameMatches(db, after)
  {
    ReleaseFrame(db.sources, d);
  }

  lemma ApproveKeeps(db: Db, d: Id)
    requires Inv(db)
    ensures Inv(Approve(db, d).db)
  {
    var r := Approve(db, d);
    if r.outcome == Done {
      ApproveRowsOk(db, r.db, d);
      ApproveStatusOk(db, r.db, d);
      ApproveMatches(db, r.db, d);
      SameMatchesOk(db, r.db);
    }
  }

  // ----- removing sources -----

  lemma RemovePairsOk(db: Db, gone: set<Id>)
    requires PairsOk(db) && RolesOk(db)
    ensures PairsOk(Without(db, gone)) && RolesOk(Without(db, gone))
  {
    var after := Without(db, gone);
    forall a: Id, b: Id
      ensures Paired(after, a, b) <==> Paired(db, a, b) && a !in gone && b !in gone
      ensures Paired(after, a, b) ==> PairOf(after, a, b) == PairOf(db, a, b)
    {
    }
    forall a | Hashed(after, a)
      ensures RoleOk(after, a)
    {
      assert Hashed(db, a) && RoleOk(db, a);
      forall b | Paired(after, a, b)
        ensures Paired(db, a, b) && Before(after, b, a) == Before(db, b, a)
      {
      }
    }
  }

  lemma RemoveRowsOk(db: Db, gone: set<Id>)
    requires DocsOk(db) && FpsOk(db) && FreshOk(db) && TrustOk(db) && HeldOk(db)
    ensures var after := Without(db, gone);
            DocsOk(after) && FpsOk(after) && FreshOk(after) && TrustOk(after) && HeldOk(after)
  {
    var after := Without(db, gone);
    assert forall s :: s in after.sources ==> s in db.sources && after.sources[s] == db.sources[s];
    assert forall s :: Hashed(after, s) ==> Hashed(db, s) && FpOf(after, s) == FpOf(db, s);
  }

  lemma RemoveSimilarOk(db: Db, gone: set<Id>)
    requires SimilarOk(db)
    ensures SimilarOk(Without(db, gone))
  {
  }

  lemma RemoveLshOk(db: Db, gone: set<Id>)
    requires LshOk(db)
    ensures LshOk(Without(db, gone))
  {
  }

  /** Removing all sources of d leaves every other document's status right. */
  lemma RemoveStatus(db: Db, d: Id, e: Id)
    requires StatusOk(db) && e in db.docs && e != d
    ensures var after := Without(db, SourcesOf(db, d));
            && SourcesOf(after, e) == SourcesOf(db, e)
            && Derived(after.sources, e) == Derived(db.sources, e)
  {
    var after := Without(db, SourcesOf(db, d));
    DerivedFrame(db.sources, after.sources, e);
  }

  lemma RemoveStatusOk(db: Db, after: Db, d: Id)
    requires StatusOk(db) && after.sources == Without(db, SourcesOf(db, d)).sources
    requires forall e :: e in after.docs ==> e in db.docs && (e != d ==> after.docs[e] == db.docs[e])
    requires d in after.docs ==> after.docs[d].status == Rejected
    ensures StatusOk(after)
  {
    var rest := Without(db, SourcesOf(db, d));
    forall e | e in after.docs
      ensures if after.docs[e].status == Rejected then SourcesOf(after, e) == {}
              else after.docs[e].status == Derived(after.sources, e)
    {
      assert SourcesOf(after, e) == SourcesOf(rest, e);
      if e != d {
        RemoveStatus(db, d, e);
      }
    }
  }

  lemma RemoveKeeps(db: Db, d: Id)
    requires Inv(db)
    ensures var rest := Without(db, SourcesOf(db, d));
            && DocsOk(rest) && FpsOk(rest) && LshOk(rest) && PairsOk(rest) && RolesOk(rest) && FreshOk(rest)
            && TrustOk(rest) && HeldOk(rest) && SimilarOk(rest)
  {
    RemovePairsOk(db, SourcesOf(db, d));
    RemoveRowsOk(db, SourcesOf(db, d));
    RemoveSimilarOk(db, SourcesOf(db, d));
    RemoveLshOk(db, SourcesOf(db, d));
  }

  lemma RejectKeeps(db: Db, d: Id)
    requires Inv(db)
    ensures Inv(RejectPending(db, d).db)
  {
    var r := RejectPending(db, d);
    if r.outcome == Done {
      RemoveKeeps(db, d);
      SameMatchesOk(Without(db, SourcesOf(db, d)), r.db);
      RemoveStatusOk(db, r.db, d);
    }
  }

  lemma DeleteKeeps(db: Db, d: Id)
    requires Inv(db)
    ensures Inv(Delete(db, d).db)
  {
    var r := Delete(db, d);
    if r.outcome == Done {
      RemoveKeeps(db, d);
      SameMatchesOk(Without(db, SourcesOf(db, d)), r.db);
      RemoveStatusOk(db, r.db, d);
    }
  }

  // ----- title similarities -----

  /** Some hit on another source than id itself. */
  predicate HitOn(hits: seq<SimilarHit>, id: Id, other: Id, i: int) {
    0 <= i < |hits| && hits[i].matched == other && other != id && other != NIL
  }

  /** The last hit on another source decides its score. */
  ghost predicate LastHit(hits: seq<SimilarHit>, id: Id, other: Id, score: real) {
    exists i :: HitOn(hits, id, other, i) && hits[i].score == score
                && forall k :: i < k < |hits| ==> hits[k].matched != other
  }

  lemma LastHitNext(hits: seq<SimilarHit>, id: Id, other: Id, score: real)
    requires hits != [] && hits[|hits| - 1].matched != other && LastHit(hits[..|hits| - 1], id, other, score)
    ensures LastHit(hits, id, other, score)
  {
  }

  /** After the writes, the source is similar to exactly the other sources that were
      hit, in both directions with the score of the last hit; pairs of other sources
      are as before. */
  lemma {:induction false} WrittenMeaning(similar: map<(Id, Id), real>, id: Id, hits: seq<SimilarHit>, a: Id, b: Id)
    requires forall a: Id, b: Id :: (a, b) in similar ==> a != id && b != id
    ensures var after := WrittenSimilar(similar, id, hits);
            && (a != id && b != id ==> ((a, b) in after <==> (a, b) in similar)
                                       && ((a, b) in similar ==> after[(a, b)] == similar[(a, b)]))
            && (a == id || b == id ==>
                  var other := if a == id then b else a;
                  && ((a, b) in after <==> exists i :: HitOn(hits, id, other, i))
                  && ((a, b) in after ==> (b, a) in after && after[(b, a)] == after[(a, b)]
                                          && LastHit(hits, id, other, after[(a, b)])))
  {
    if hits != [] {
      var front, hit := hits[..|hits| - 1], hits[|hits| - 1];
      WrittenMeaning(similar, id, front, a, b);
      if a == id || b == id {
        var other := if a == id then b else a;
        if hit.matched == other && other != id && other != NIL {
          assert HitOn(hits, id, other, |hits| - 1);
        } else {
          HitOnNext(front, hits, id, other);
          var before := WrittenSimilar(similar, id, front);
          if (a, b) in before && hit.matched != other {
            LastHitNext(hits, id, other, before[(a, b)]);
          }
        }
      }
    }
  }

  lemma HitOnNext(front: seq<SimilarHit>, hits: seq<SimilarHit>, id: Id, other: Id)
    requires hits != [] && front == hits[..|hits| - 1]
    requires hits[|hits| - 1].matched != other || other == id || other == NIL
    ensures (exists i :: HitOn(hits, id, other, i)) <==> exists i :: HitOn(front, id, other, i)
  {
    if i :| HitOn(hits, id, other, i) {
      assert HitOn(front, id, other, i);
    }
    if i :| HitOn(front, id, other, i) {
      assert HitOn(hits, id, other, i);
    }
  }

  lemma ReplacedSimilarOk(db: Db, id: Id, hits: seq<SimilarHit>)
    requires SimilarOk(db)
    ensures SimilarOk(ReplaceSimilar(db, id, hits).db)
  {
    var r := ReplaceSimilar(db, id, hits);
    if r.outcome == Done {
      var kept := FirstSimilar(hits);
      forall a: Id, b: Id | (a, b) in r.db.similar
        ensures a != b && a in db.sources && b in db.sources
        ensures (b, a) in r.db.similar && r.db.similar[(b, a)] == r.db.similar[(a, b)]
        ensures 0.0 <= r.db.similar[(a, b)] <= 1.0
      {
        WrittenMeaning(Others(db.similar, id), id, kept, a, b);
        WrittenMeaning(Others(db.similar, id), id, kept, b, a);
      }
    }
  }

  lemma OnlySimilarChanged(db: Db, after: Db)
    requires Inv(db) && after == db.(similar := after.similar) && SimilarOk(after)
    ensures Inv(after)
  {
    SameMatchesOk(db, after);
    assert forall d :: SourcesOf(after, d) == SourcesOf(db, d);
  }

  lemma ReplaceSimilarKeeps(db: Db, id: Id, hits: seq<SimilarHit>)
    requires Inv(db)
    ensures Inv(ReplaceSimilar(db, id, hits).db)
  {
    ReplacedSimilarOk(db, id, hits);
    OnlySimilarChanged(db, ReplaceSimilar(db, id, hits).db);
  }
}
