/** The three searches, merged and filtered, find exactly the linked sources. */
module Searches {
  import opened Fingerprints
  import opened Options
  import opened Tables
  import opened Words

  /** Stored fingerprints are those of analysed files. */
  ghost predicate FpsOk(db: Db) {
    forall s :: Hashed(db, s) ==> WellFormed(FpOf(db, s)) && FpOf(db, s).sha != ""
  }

  /** The index holds exactly the bands of the stored hashes. */
  ghost predicate LshOk(db: Db) {
    forall r :: r in db.lsh <==> Hashed(db, r.source) && r in RowsOf(r.source, FpOf(db, r.source))
  }

  /** Whether a fingerprint is indexed under this kind of hash. */
  predicate Indexed(fp: Fingerprint, hash: HashKind) {
    match hash
    case Sim => fp.hasText
    case Perceptual => !fp.hasText && fp.hasVisual
  }

  /** A shared bucket means an agreeing band of the stored hash. */
  lemma SharesBucketMeaning(db: Db, y: Id, hash: HashKind, value: uint64)
    requires LshOk(db) && FpsOk(db) && Hashed(db, y)
    ensures SharesBucket(db, y, hash, value) <==>
              var stored := StoredHash(FpOf(db, y), hash);
              Indexed(FpOf(db, y), hash) && stored != 0
              && exists i :: 0 <= i < LSH_BANDS && Bands(value)[i] == Bands(stored)[i]
  {
  }

  /** The band lookup followed by the distance filter misses nothing that comparing
      against every stored hash would find, for every bound below the band count. */
  lemma NearHitsExact(db: Db, except: Id, hash: HashKind, value: uint64, maxDist: int, y: Id)
    requires LshOk(db) && FpsOk(db) && maxDist < LSH_BANDS
    ensures y in NearHits(db, except, hash, value, maxDist) <==>
              && Hashed(db, y) && y != except
              && value != 0 && StoredHash(FpOf(db, y), hash) != 0
              && Distance(value, StoredHash(FpOf(db, y), hash)) <= maxDist
  {
    if Hashed(db, y) && value != 0 && StoredHash(FpOf(db, y), hash) != 0
       && Distance(value, StoredHash(FpOf(db, y), hash)) <= maxDist {
      var stored := StoredHash(FpOf(db, y), hash);
      NearShareBand(value, stored);
      SharesBucketMeaning(db, y, hash, value);
    }
  }

  /** The hit a linked source deserves. */
  function LinkHit(db: Db, y: Id, e: Edge): Hit
    requires Hashed(db, y)
  {
    Hit(e.score, e.kind, if e.kind == Exact then 0 else FpOf(db, y).pages, db.sources[y].doc, db.sources[y].uploaded)
  }

  /** The hits of a brute-force scan by the match relation. */
  function Linked(db: Db, id: Id, fp: Fingerprint): Hits {
    map y | y in db.sources && Hashed(db, y) && y != id && Link(fp, FpOf(db, y)).Some?
      :: LinkHit(db, y, Link(fp, FpOf(db, y)).value)
  }

  /** What the merged searches say about y. */
  ghost predicate Agrees(db: Db, id: Id, fp: Fingerprint, y: Id) {
    var hits := Confident(fp, Candidates(db, id, fp));
    && (y in hits <==> y in Linked(db, id, fp))
    && (y in hits ==> hits[y] == Linked(db, id, fp)[y])
  }

  /** An exact hit scores 100 and is never replaced. */
  lemma ExactAgrees(db: Db, id: Id, fp: Fingerprint, y: Id)
    requires Hashed(db, y) && y != id && FpOf(db, y).sha == fp.sha
    ensures Agrees(db, id, fp, y)
  {
    var exact := ExactHits(db, id, fp.sha);
    assert exact[y].score == 100.0;
    NearScores(db, id, fp, y);
    assert Candidates(db, id, fp)[y] == exact[y];
  }

  lemma NearScores(db: Db, id: Id, fp: Fingerprint, y: Id)
    ensures y in SecondHits(db, id, fp) ==> SecondHits(db, id, fp)[y].score == 99.5
    ensures y in ThirdHits(db, id, fp) ==> ThirdHits(db, id, fp)[y].score <= 100.0
  {
  }

  lemma TextAgrees(db: Db, id: Id, fp: Fingerprint, y: Id)
    requires LshOk(db) && FpsOk(db) && WellFormed(fp)
    requires Hashed(db, y) && y != id && FpOf(db, y).sha != fp.sha && fp.hasText
    ensures Agrees(db, id, fp, y)
  {
    var g := FpOf(db, y);
    NearHitsExact(db, id, Sim, fp.simHash, SIM_HASH_MAX_DIST, y);
    ThresholdIsOneBit(Distance(fp.simHash, g.simHash));
    assert y !in ExactHits(db, id, fp.sha);
    assert y in SecondHits(db, id, fp) <==> g.textNorm == fp.textNorm;
    assert y in ThirdHits(db, id, fp) <==> Near(fp.simHash, g.simHash);
  }

  lemma VisualAgrees(db: Db, id: Id, fp: Fingerprint, y: Id)
    requires LshOk(db) && FpsOk(db) && WellFormed(fp)
    requires Hashed(db, y) && y != id && FpOf(db, y).sha != fp.sha && !fp.hasText
    ensures Agrees(db, id, fp, y)
  {
    var g := FpOf(db, y);
    NearHitsExact(db, id, Perceptual, fp.pHash, P_HASH_MAX_DIST, y);
    ThresholdIsOneBit(Distance(fp.pHash, g.pHash));
    assert y !in ExactHits(db, id, fp.sha);
    assert y !in SecondHits(db, id, fp);
    assert y in ThirdHits(db, id, fp) <==> Near(fp.pHash, g.pHash);
  }

  lemma CandidateMeaning(db: Db, id: Id, fp: Fingerprint, y: Id)
    requires LshOk(db) && FpsOk(db) && WellFormed(fp) && fp.sha != ""
    ensures Agrees(db, id, fp, y)
  {
    if !Hashed(db, y) || y == id {
      assert y !in Candidates(db, id, fp);
    } else if FpOf(db, y).sha == fp.sha {
      ExactAgrees(db, id, fp, y);
    } else if fp.hasText {
      TextAgrees(db, id, fp, y);
    } else {
      VisualAgrees(db, id, fp, y);
    }
  }

  /** The transaction's three searches, merge and filter compute the match relation. */
  lemma SearchesFindLinks(db: Db, id: Id, fp: Fingerprint)
    requires LshOk(db) && FpsOk(db) && WellFormed(fp) && fp.sha != ""
    ensures Confident(fp, Candidates(db, id, fp)) == Linked(db, id, fp)
  {
    var hits := Confident(fp, Candidates(db, id, fp));
    forall y
      ensures y in hits <==> y in Linked(db, id, fp)
      ensures y in hits ==> hits[y] == Linked(db, id, fp)[y]
    {
      CandidateMeaning(db, id, fp, y);
    }
  }
}
