/** What every transaction keeps: exact pairs, an exact index, consistent roles and
    scores, and document statuses derived from the sources. */
module Invariants {
  import opened Fingerprints
  import opened Options
  import opened Searches
  import opened Tables
  import N = Notes

  ghost predicate DocsOk(db: Db) {
    forall s :: s in db.sources ==> db.sources[s].doc in db.docs
  }

  /** Both sources are finalised and their fingerprints match. */
  predicate Paired(db: Db, a: Id, b: Id) {
    a != b && Hashed(db, a) && Hashed(db, b) && Link(FpOf(db, a), FpOf(db, b)).Some?
  }

  function PairOf(db: Db, a: Id, b: Id): Pair
    requires Paired(db, a, b)
  {
    var e := Link(FpOf(db, a), FpOf(db, b)).value;
    Pair(e.score, e.kind)
  }

  /** The pair table is exactly the match relation on the living finalised sources. */
  ghost predicate PairsOk(db: Db) {
    forall a: Id, b: Id ::
      && ((a, b) in db.pairs <==> Paired(db, a, b))
      && ((a, b) in db.pairs ==> db.pairs[(a, b)] == PairOf(db, a, b))
  }

  predicate Before(db: Db, a: Id, b: Id)
    requires a in db.sources && b in db.sources
  {
    UploadedFirst(a, db.sources[a].uploaded, b, db.sources[b].uploaded)
  }

  /** The later member of a pair is a duplicate, a source with a pair is not unique,
      and a source's score is at least the score of each of its pairs. */
  ghost predicate RoleOk(db: Db, a: Id)
    requires a in db.sources
  {
    var s := db.sources[a];
    && (s.score.None? <==> s.role == Unique)
    && (forall b :: Paired(db, a, b) ==>
                      && s.role != Unique
                      && PairOf(db, a, b).score <= s.score.value
                      && (Before(db, b, a) ==> s.role == Duplicate))
  }

  ghost predicate RolesOk(db: Db) {
    forall a :: Hashed(db, a) ==> RoleOk(db, a)
  }

  /** A source without a fingerprint is as it was inserted. */
  ghost predicate FreshOk(db: Db) {
    forall s :: s in db.sources && db.sources[s].fp.None? ==>
                  db.sources[s].role == Unique && db.sources[s].score.None? && db.sources[s].released
  }

  ghost predicate StatusOk(db: Db) {
    forall d :: d in db.docs ==>
                  if db.docs[d].status == Rejected then SourcesOf(db, d) == {}
                  else db.docs[d].status == Derived(db.sources, d)
  }

  /** Nothing of a trusted owner is ever held back. */
  ghost predicate TrustOk(db: Db)
    requires DocsOk(db)
  {
    forall s :: s in db.sources && db.docs[db.sources[s].doc].trusted ==> db.sources[s].released
  }

  /** Only duplicates are ever held back. */
  ghost predicate HeldOk(db: Db) {
    forall s :: s in db.sources && !db.sources[s].released ==> db.sources[s].role == Duplicate
  }

  ghost predicate SimilarOk(db: Db) {
    forall a: Id, b: Id :: (a, b) in db.similar ==>
                     && a != b && a in db.sources && b in db.sources
                     && (b, a) in db.similar && db.similar[(b, a)] == db.similar[(a, b)]
                     && 0.0 <= db.similar[(a, b)] <= 1.0
  }

  ghost predicate NotesOk(db: Db) {
    forall d :: d in db.docs ==> N.Settled(db.docs[d].note)
  }

  ghost predicate Inv(db: Db) {
    && DocsOk(db) && FpsOk(db) && LshOk(db) && PairsOk(db) && RolesOk(db) && FreshOk(db)
    && StatusOk(db) && TrustOk(db) && HeldOk(db) && SimilarOk(db) && NotesOk(db)
  }

  // ----- upload order -----

  lemma UploadOrder(a: Id, s: int, b: Id, t: int)
    ensures a != b ==> (UploadedFirst(a, s, b, t) <==> !UploadedFirst(b, t, a, s))
  {
  }

  lemma PairedSymmetric(db: Db, a: Id, b: Id)
    ensures Paired(db, a, b) <==> Paired(db, b, a)
    ensures Paired(db, a, b) ==> PairOf(db, a, b) == PairOf(db, b, a)
  {
    if a != b && Hashed(db, a) && Hashed(db, b) {
      LinkSymmetric(FpOf(db, a), FpOf(db, b));
    }
  }

  // ----- finalising -----

  /** `after` has the same rows as `db`, with the fingerprint of `id` filled in. */
  ghost predicate Extends(db: Db, after: Db, id: Id, fp: Fingerprint) {
    && after.sources.Keys == db.sources.Keys && after.docs.Keys == db.docs.Keys
    && id in db.sources && db.sources[id].fp.None?
    && (forall s :: s in db.sources ==>
                      && after.sources[s].doc == db.sources[s].doc
                      && after.sources[s].uploaded == db.sources[s].uploaded
                      && after.sources[s].fp == if s == id then Some(fp) else db.sources[s].fp)
  }

  /** Sources other than the new one and its hits stay as they are. */
  lemma FinalFrame(db: Db, id: Id, fp: Fingerprint, hits: Hits, ids: set<Id>)
    requires id in db.sources && db.sources[id].fp.None? && db.sources[id].doc in db.docs && id !in hits
    ensures var after := Finalized(db, id, fp, hits, ids);
            && Extends(db, after, id, fp)
            && (forall s :: s in db.sources && s != id ==> after.sources[s].released == db.sources[s].released)
            && (forall s :: s in db.sources && s != id && s !in hits ==> after.sources[s] == db.sources[s])
  {
  }

  lemma FinalLshOk(db: Db, after: Db, id: Id, fp: Fingerprint)
    requires LshOk(db) && Extends(db, after, id, fp) && after.lsh == FinalLsh(db.lsh, id, fp)
    ensures LshOk(after)
  {
  }

  /** Which pairs exist afterwards: the old ones and those with the new source. */
  lemma FinalPaired(db: Db, after: Db, id: Id, fp: Fingerprint, a: Id, b: Id)
    requires Extends(db, after, id, fp)
    ensures Paired(after, a, b) <==>
              if a == id then b in Linked(db, id, fp)
              else if b == id then a in Linked(db, id, fp)
              else Paired(db, a, b)
    ensures Paired(after, a, b) ==>
              PairOf(after, a, b) ==
              if a == id then Pair(Linked(db, id, fp)[b].score, Linked(db, id, fp)[b].kind)
              else if b == id then Pair(Linked(db, id, fp)[a].score, Linked(db, id, fp)[a].kind)
              else PairOf(db, a, b)
  {
    if b == id && Hashed(db, a) {
      LinkSymmetric(fp, FpOf(db, a));
    }
  }

  /** What the pair table holds afterwards, when it held no pair of the new source. */
  lemma FinalPairsMeaning(pairs: map<(Id, Id), Pair>, id: Id, hits: Hits, a: Id, b: Id)
    requires id !in hits
    requires a == id || b == id ==> (a, b) !in pairs
    ensures var after := FinalPairs(pairs, id, hits);
            && ((a, b) in after <==> if a == id then b in hits else if b == id then a in hits else (a, b) in pairs)
            && ((a, b) in after ==>
                  after[(a, b)] == if a == id then Pair(hits[b].score, hits[b].kind)
                                   else if b == id then Pair(hits[a].score, hits[a].kind)
                                   else pairs[(a, b)])
  {
  }

  lemma FinalPairsOk(db: Db, after: Db, id: Id, fp: Fingerprint)
    requires PairsOk(db) && Extends(db, after, id, fp)
    requires after.pairs == FinalPairs(db.pairs, id, Linked(db, id, fp))
    ensures PairsOk(after)
  {
    forall a: Id, b: Id
      ensures (a, b) in after.pairs <==> Paired(after, a, b)
      ensures (a, b) in after.pairs ==> after.pairs[(a, b)] == PairOf(after, a, b)
    {
      assert (a, b) in db.pairs <==> Paired(db, a, b);
      FinalPaired(db, after, id, fp, a, b);
      FinalPairsMeaning(db.pairs, id, Linked(db, id, fp), a, b);
    }
  }

  /** The new source's own row. */
  ghost predicate NewRow(db: Db, after: Db, id: Id, hits: Hits)
    requires id in after.sources
  {
    var s := after.sources[id];
    && s.role == RoleAgainst(id, s.uploaded, hits)
    && (if hits == map[] then s.score.None? else s.score.Some? && IsBest(hits, s.score.value))
  }

  lemma NewRoleOk(db: Db, after: Db, id: Id, fp: Fingerprint)
    requires Extends(db, after, id, fp) && NewRow(db, after, id, Linked(db, id, fp))
    ensures RoleOk(after, id)
  {
    var hits := Linked(db, id, fp);
    forall b | Paired(after, id, b)
      ensures after.sources[id].role != Unique
      ensures PairOf(after, id, b).score <= after.sources[id].score.value
      ensures Before(after, b, id) ==> after.sources[id].role == Duplicate
    {
      FinalPaired(db, after, id, fp, id, b);
      assert b in hits && hits[b].uploaded == after.sources[b].uploaded;
      UploadOrder(id, after.sources[id].uploaded, b, hits[b].uploaded);
    }
  }

  /** The row of a source that was hashed before. */
  ghost predicate OldRow(db: Db, after: Db, id: Id, hits: Hits, a: Id)
    requires id in db.sources && a in db.sources && a in after.sources
  {
    if a in hits then
      after.sources[a] ==
      Promoted(db.sources[a],
               if UploadedFirst(a, hits[a].uploaded, id, db.sources[id].uploaded) then Original else Duplicate,
               hits[a].score)
    else after.sources[a] == db.sources[a]
  }

  lemma OldRoleOk(db: Db, after: Db, id: Id, fp: Fingerprint, a: Id)
    requires Extends(db, after, id, fp) && Hashed(db, a) && RoleOk(db, a)
    requires OldRow(db, after, id, Linked(db, id, fp), a)
    ensures RoleOk(after, a)
  {
    var hits := Linked(db, id, fp);
    forall b | Paired(after, a, b)
      ensures after.sources[a].role != Unique
      ensures PairOf(after, a, b).score <= after.sources[a].score.value
      ensures Before(after, b, a) ==> after.sources[a].role == Duplicate
    {
      FinalPaired(db, after, id, fp, a, b);
      if b == id {
        UploadOrder(id, db.sources[id].uploaded, a, db.sources[a].uploaded);
      } else {
        assert Paired(db, a, b) && Before(after, b, a) == Before(db, b, a);
      }
    }
  }

  lemma HitDoc(hits: Hits, s: Id)
    ensures s in hits ==> hits[s].doc in DocsOf(hits)
  {
  }

  /** A document none of whose sources changed deserves the same status. */
  lemma DerivedFrame(before: map<Id, Source>, after: map<Id, Source>, d: Id)
    requires forall s :: s in before && before[s].doc == d ==> s in after && after[s] == before[s]
    requires forall s :: s in after && after[s].doc == d ==> s in before && after[s] == before[s]
    ensures Derived(after, d) == Derived(before, d)
  {
  }

  lemma FinalStatusOk(db: Db, after: Db, id: Id, fp: Fingerprint, ids: set<Id>)
    requires StatusOk(db) && Extends(db, after, id, fp)
    requires db.sources[id].doc in ids && DocsOf(Linked(db, id, fp)) <= ids
    requires forall s :: s in db.sources && s != id && s !in Linked(db, id, fp) ==> after.sources[s] == db.sources[s]
    requires after.docs == SettledDocs(db.docs, after.sources, ids)
    ensures StatusOk(after)
  {
    var hits := Linked(db, id, fp);
    forall d | d in after.docs
      ensures if after.docs[d].status == Rejected then SourcesOf(after, d) == {}
              else after.docs[d].status == Derived(after.sources, d)
    {
      assert SourcesOf(after, d) == SourcesOf(db, d);
      if d !in ids {
        forall s | s in db.sources && db.sources[s].doc == d
          ensures s !in hits
        {
          HitDoc(hits, s);
        }
        DerivedFrame(db.sources, after.sources, d);
      }
    }
  }

  /** A finalisation that is about to write: its source is not yet hashed, and it locked
      at least the documents of that source and of the linked sources. */
  ghost predicate Ready(db: Db, id: Id, fp: Fingerprint, ids: set<Id>) {
    && id in db.sources && db.sources[id].fp.None? && db.sources[id].doc in db.docs
    && WellFormed(fp) && fp.sha != ""
    && db.sources[id].doc in ids && DocsOf(Linked(db, id, fp)) <= ids
  }

  ghost function Final(db: Db, id: Id, fp: Fingerprint, ids: set<Id>): Db
    requires Ready(db, id, fp, ids)
  {
    Finalized(db, id, fp, Linked(db, id, fp), ids)
  }

  lemma FinalRolesOk(db: Db, id: Id, fp: Fingerprint, ids: set<Id>)
    requires RolesOk(db) && Ready(db, id, fp, ids)
    ensures RolesOk(Final(db, id, fp, ids))
  {
    var hits, after := Linked(db, id, fp), Final(db, id, fp, ids);
    FinalFrame(db, id, fp, hits, ids);
    forall a | Hashed(after, a)
      ensures RoleOk(after, a)
    {
      if a == id {
        assert NewRow(db, after, id, hits);
        NewRoleOk(db, after, id, fp);
      } else {
        assert OldRow(db, after, id, hits, a);
        OldRoleOk(db, after, id, fp, a);
      }
    }
  }

  lemma FinalFpsOk(db: Db, after: Db, id: Id, fp: Fingerprint)
    requires Extends(db, after, id, fp) && WellFormed(fp) && fp.sha != "" && DocsOk(db) && FpsOk(db)
    ensures DocsOk(after) && FpsOk(after)
  {
    forall s | Hashed(after, s)
      ensures WellFormed(FpOf(after, s)) && FpOf(after, s).sha != ""
    {
      assert s == id || Hashed(db, s);
    }
  }

  lemma FinalFreshOk(db: Db, after: Db, id: Id, fp: Fingerprint)
    requires Extends(db, after, id, fp) && FreshOk(db)
    requires forall s :: s in db.sources && s != id && s !in Linked(db, id, fp) ==> after.sources[s] == db.sources[s]
    ensures FreshOk(after)
  {
  }

  lemma FinalTrustOk(db: Db, id: Id, fp: Fingerprint, hits: Hits, ids: set<Id>)
    requires id in db.sources && db.sources[id].fp.None? && id !in hits && DocsOk(db) && TrustOk(db) && HeldOk(db)
    requires DocsOk(Finalized(db, id, fp, hits, ids))
    ensures TrustOk(Finalized(db, id, fp, hits, ids)) && HeldOk(Finalized(db, id, fp, hits, ids))
  {
    FinalFrame(db, id, fp, hits, ids);
  }

  lemma FinalOthersOk(db: Db, id: Id, fp: Fingerprint, ids: set<Id>)
    requires Ready(db, id, fp, ids) && SimilarOk(db) && NotesOk(db)
    ensures SimilarOk(Final(db, id, fp, ids)) && NotesOk(Final(db, id, fp, ids))
  {
    FinalFrame(db, id, fp, Linked(db, id, fp), ids);
  }

  lemma FinalInv(db: Db, id: Id, fp: Fingerprint, ids: set<Id>)
    requires Inv(db) && Ready(db, id, fp, ids)
    ensures Inv(Final(db, id, fp, ids))
  {
    var after := Final(db, id, fp, ids);
    FinalFrame(db, id, fp, Linked(db, id, fp), ids);
    FinalFpsOk(db, after, id, fp);
    FinalFreshOk(db, after, id, fp);
    FinalTrustOk(db, id, fp, Linked(db, id, fp), ids);
    FinalOthersOk(db, id, fp, ids);
    FinalLshOk(db, after, id, fp);
    FinalPairsOk(db, after, id, fp);
    FinalStatusOk(db, after, id, fp, ids);
    FinalRolesOk(db, id, fp, ids);
  }

  /** An atomic finalisation that writes is ready to. */
  lemma FinalizeIsFinal(db: Db, id: Id, fp: Fingerprint, extra: set<Id>)
    requires DocsOk(db) && LshOk(db) && FpsOk(db) && WellFormed(fp)
    requires fp.sha != "" && id in db.sources && db.sources[id].fp.None?
    ensures var ids := {db.sources[id].doc} + DocsOf(Candidates(db, id, fp)) + extra;
            Ready(db, id, fp, ids) && Finalize(db, id, fp, extra) == Final(db, id, fp, ids)
  {
    SearchesFindLinks(db, id, fp);
    var candidates, hits := Candidates(db, id, fp), Linked(db, id, fp);
    forall y | y in hits
      ensures hits[y].doc in DocsOf(candidates)
    {
      assert y in Confident(fp, candidates);
      assert hits[y] == candidates[y];
    }
  }

  lemma FinalizeKeeps(db: Db, id: Id, fp: Fingerprint, extra: set<Id>)
    requires Inv(db) && WellFormed(fp)
    ensures Inv(Finalize(db, id, fp, extra))
  {
    if fp.sha != "" && id in db.sources && db.sources[id].fp.None? {
      FinalizeIsFinal(db, id, fp, extra);
      FinalInv(db, id, fp, {db.sources[id].doc} + DocsOf(Candidates(db, id, fp)) + extra);
    }
  }
}
