/** Search results age well: while a transaction holds its lock keys, nothing other
    transactions commit can add to what its searches found. */
module Stability {
  import opened Fingerprints
  import opened Invariants
  import opened LockKeys
  import opened Searches
  import opened Tables

  /** Between two states, hashed sources keep their data for as long as they live, and
      no source related to fp has become hashed. */
  ghost predicate Later(db: Db, after: Db, fp: Fingerprint) {
    && (forall y :: Hashed(db, y) && y in after.sources ==>
                      && after.sources[y].fp == db.sources[y].fp
                      && after.sources[y].doc == db.sources[y].doc
                      && after.sources[y].uploaded == db.sources[y].uploaded)
    && (forall y :: Hashed(after, y) ==> Hashed(db, y) || !Related(fp, FpOf(after, y)))
  }

  ghost predicate IndexOk(db: Db) {
    LshOk(db) && FpsOk(db)
  }

  lemma ExactStable(db: Db, after: Db, id: Id, fp: Fingerprint)
    requires Later(db, after, fp)
    ensures ExactHits(after, id, fp.sha) == Living(after, ExactHits(db, id, fp.sha))
  {
  }

  lemma SecondStable(db: Db, after: Db, id: Id, fp: Fingerprint)
    requires Later(db, after, fp)
    ensures SecondHits(after, id, fp) == Living(after, SecondHits(db, id, fp))
  {
  }

  /** Membership in a near search, in terms of fingerprints only. */
  lemma NearMember(db: Db, id: Id, hash: HashKind, fp: Fingerprint, y: Id)
    requires IndexOk(db) && WellFormed(fp)
    ensures y in NearHits(db, id, hash, StoredHash(fp, hash), 1) <==>
              Hashed(db, y) && y != id && Near(StoredHash(fp, hash), StoredHash(FpOf(db, y), hash))
  {
    NearHitsExact(db, id, hash, StoredHash(fp, hash), 1, y);
  }

  lemma NearStable(db: Db, after: Db, id: Id, hash: HashKind, fp: Fingerprint)
    requires IndexOk(db) && IndexOk(after) && WellFormed(fp) && Later(db, after, fp)
    requires Indexed(fp, hash)
    ensures NearHits(after, id, hash, StoredHash(fp, hash), 1) ==
            Living(after, NearHits(db, id, hash, StoredHash(fp, hash), 1))
  {
    var now, was := NearHits(after, id, hash, StoredHash(fp, hash), 1), NearHits(db, id, hash, StoredHash(fp, hash), 1);
    forall y
      ensures y in now <==> y in Living(after, was)
      ensures y in now ==> now[y] == was[y]
    {
      NearMember(db, id, hash, fp, y);
      NearMember(after, id, hash, fp, y);
    }
  }

  lemma ThirdStable(db: Db, after: Db, id: Id, fp: Fingerprint)
    requires IndexOk(db) && IndexOk(after) && WellFormed(fp) && Later(db, after, fp)
    ensures ThirdHits(after, id, fp) == Living(after, ThirdHits(db, id, fp))
  {
    if fp.hasText {
      NearStable(db, after, id, Sim, fp);
    } else if fp.hasVisual {
      NearStable(db, after, id, Perceptual, fp);
    }
  }

  lemma LivingMerge(db: Db, d: Hits, s: Hits)
    ensures Living(db, Merge(d, s)) == Merge(Living(db, d), Living(db, s))
  {
  }

  /** What the first two searches have found, later on. */
  lemma TwoStable(db: Db, after: Db, id: Id, fp: Fingerprint)
    requires Later(db, after, fp)
    ensures Merge(ExactHits(after, id, fp.sha), SecondHits(after, id, fp)) ==
            Living(after, Merge(ExactHits(db, id, fp.sha), SecondHits(db, id, fp)))
  {
    ExactStable(db, after, id, fp);
    SecondStable(db, after, id, fp);
    LivingMerge(after, ExactHits(db, id, fp.sha), SecondHits(db, id, fp));
  }

  /** What all searches have found, later on: the candidates of the moment. */
  lemma CandidatesStable(db: Db, after: Db, id: Id, fp: Fingerprint)
    requires IndexOk(db) && IndexOk(after) && WellFormed(fp) && Later(db, after, fp)
    ensures Candidates(after, id, fp) == Living(after, Candidates(db, id, fp))
  {
    TwoStable(db, after, id, fp);
    ThirdStable(db, after, id, fp);
    LivingMerge(after, Merge(ExactHits(db, id, fp.sha), SecondHits(db, id, fp)), ThirdHits(db, id, fp));
  }

  /** Candidates carry the data of living sources. */
  lemma CandidateData(db: Db, id: Id, fp: Fingerprint, y: Id)
    requires y in Candidates(db, id, fp)
    ensures Hashed(db, y) && y != id && Candidates(db, id, fp)[y].doc == db.sources[y].doc
  {
  }

  /** A commit that shares no relation with fp. */
  lemma CommitLater(db: Db, after: Db, z: Id, g: Fingerprint, fp: Fingerprint)
    requires Extends(db, after, z, g) && !Related(fp, g)
    ensures Later(db, after, fp)
  {
  }
}
