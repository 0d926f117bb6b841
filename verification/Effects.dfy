/** What each transaction does, row by row and field by field: when it is refused, what it
    changes, and that it changes nothing else. */
module Effects {
  import opened Fingerprints
  import opened Invariants
  import opened Likeness
  import opened Options
  import opened Preservation
  import opened Searches
  import opened Tables
  import N = Notes
  import T = NoteTexts

  // ----- new files -----

  /** The rows of these files are there, unhashed and released, besides the old ones. */
  ghost predicate FilesAdded(db: Db, after: Db, d: Id, files: map<Id, int>) {
    && after.sources.Keys == db.sources.Keys + files.Keys
    && (forall f :: f in files ==> after.sources[f] == Source(d, files[f], None, Unique, None, true))
    && (forall s :: s in db.sources && s !in files ==> after.sources[s] == db.sources[s])
    && after.pairs == db.pairs && after.lsh == db.lsh && after.similar == db.similar
  }

  /** No document but d is added, removed or changed. */
  ghost predicate OnlyDoc(db: Db, after: Db, d: Id) {
    && (forall e :: e != d ==> (e in after.docs <==> e in db.docs))
    && (forall e :: e != d && e in db.docs ==> after.docs[e] == db.docs[e])
  }

  predicate ErpInUse(db: Db, erp: string) {
    exists e :: e in db.docs && db.docs[e].erp == erp
  }

  predicate Clashes(db: Db, files: map<Id, int>) {
    exists f :: f in files && f in db.sources
  }

  /** A document is created exactly when it brings files within the limit, under an ERP
      label and ids that nobody uses. */
  lemma CreateOutcome(db: Db, d: Id, erp: string, trusted: bool, files: map<Id, int>, maxSources: int, notes: seq<string>)
    ensures var r := Create(db, d, erp, trusted, files, maxSources, notes);
            && (r.outcome == NoFiles <==> files == map[])
            && (r.outcome == TooMany <==> files != map[] && |files| > maxSources)
            && (r.outcome == ErpTaken <==>
                  files != map[] && |files| <= maxSources && (d in db.docs || ErpInUse(db, erp)))
            && (r.outcome == Conflict <==>
                  files != map[] && |files| <= maxSources && d !in db.docs && !ErpInUse(db, erp) && Clashes(db, files))
            && (r.outcome == Done <==>
                  files != map[] && |files| <= maxSources && d !in db.docs && !ErpInUse(db, erp) && !Clashes(db, files))
            && (r.outcome != Done ==> r.db == db)
  {
  }

  /** It then waits to be processed and reported, with its files and notes. */
  lemma CreateEffect(db: Db, d: Id, erp: string, trusted: bool, files: map<Id, int>, maxSources: int, notes: seq<string>)
    requires Create(db, d, erp, trusted, files, maxSources, notes).outcome == Done
    ensures var after := Create(db, d, erp, trusted, files, maxSources, notes).db;
            && OnlyDoc(db, after, d) && FilesAdded(db, after, d, files)
            && d in after.docs && after.docs[d] == Document(erp, trusted, Processing, false, N.Log(notes))
  {
    var after := Create(db, d, erp, trusted, files, maxSources, notes).db;
    NewRows(db, after, d, files);
    NewDoc(db, after, d);
  }

  lemma NewDoc(db: Db, after: Db, d: Id)
    requires d in after.docs && after.docs == db.docs[d := after.docs[d]]
    ensures OnlyDoc(db, after, d)
  {
  }

  lemma NewRows(db: Db, after: Db, d: Id, files: map<Id, int>)
    requires after == db.(docs := after.docs, sources := db.sources + NewSources(d, files))
    ensures FilesAdded(db, after, d, files)
  {
  }

  /** What adding files leaves of the document row: it is processed and reported again. */
  ghost predicate Reopened(db: Db, after: Db, d: Id, note: string) {
    && d in db.docs && d in after.docs && OnlyDoc(db, after, d)
    && after.docs[d].erp == db.docs[d].erp && after.docs[d].trusted == db.docs[d].trusted
    && after.docs[d].status == Processing && !after.docs[d].notified
    && after.docs[d].note == T.Appended(db.docs[d].note, N.Clamp(note))
  }

  /** Files are inserted exactly when the document exists, holds at most the limit
      afterwards, and none of the ids is in use. */
  lemma InsertOutcome(db: Db, d: Id, files: map<Id, int>, maxSources: int, note: string)
    ensures var r, most := InsertSources(db, d, files, maxSources, note), if maxSources < 1 then 4 else maxSources;
            && (r.outcome == NotFound <==> d !in db.docs)
            && (r.outcome == TooMany <==> d in db.docs && |SourcesOf(db, d)| + |files| > most)
            && (r.outcome == Conflict <==>
                  d in db.docs && |SourcesOf(db, d)| + |files| <= most && Clashes(db, files))
            && (r.outcome == Done <==>
                  d in db.docs && |SourcesOf(db, d)| + |files| <= most && !Clashes(db, files))
            && (r.outcome != Done ==> r.db == db)
  {
  }

  lemma InsertEffect(db: Db, d: Id, files: map<Id, int>, maxSources: int, note: string)
    requires NotesOk(db) && InsertSources(db, d, files, maxSources, note).outcome == Done
    ensures var after := InsertSources(db, d, files, maxSources, note).db;
            Reopened(db, after, d, note) && FilesAdded(db, after, d, files)
  {
    var after := InsertSources(db, d, files, maxSources, note).db;
    N.ClampIsClean(note);
    T.AppendOneLine(db.docs[d].note, N.Clamp(note));
    NewRows(db, after, d, files);
  }

  /** The service accepts files exactly when there are some, the document holds at most
      the limit afterwards, and none of the ids is in use. */
  lemma AddOutcome(db: Db, d: Id, files: map<Id, int>, maxSources: int, note: string)
    ensures var r := AddSources(db, d, files, maxSources, note);
            && (r.outcome == NotFound <==> d !in db.docs)
            && (r.outcome == NoFiles <==> d in db.docs && files == map[])
            && (r.outcome == TooMany <==> d in db.docs && files != map[] && |SourcesOf(db, d)| + |files| > maxSources)
            && (r.outcome == Conflict <==>
                  d in db.docs && files != map[] && |SourcesOf(db, d)| + |files| <= maxSources && Clashes(db, files))
            && (r.outcome == Done <==>
                  d in db.docs && files != map[] && |SourcesOf(db, d)| + |files| <= maxSources && !Clashes(db, files))
            && (r.outcome != Done ==> r.db == db)
  {
    InsertOutcome(db, d, files, maxSources, note);
  }

  lemma AddEffect(db: Db, d: Id, files: map<Id, int>, maxSources: int, note: string)
    requires NotesOk(db) && AddSources(db, d, files, maxSources, note).outcome == Done
    ensures var after := AddSources(db, d, files, maxSources, note).db;
            Reopened(db, after, d, note) && FilesAdded(db, after, d, files)
  {
    InsertEffect(db, d, files, maxSources, note);
  }

  // ----- decisions -----

  /** Every source of d is released and nothing else about sources changes. */
  ghost predicate OnlyReleased(db: Db, after: Db, d: Id) {
    && after.sources.Keys == db.sources.Keys
    && (forall s :: s in db.sources ==>
          after.sources[s] == if db.sources[s].doc == d then db.sources[s].(released := true) else db.sources[s])
    && after.pairs == db.pairs && after.lsh == db.lsh && after.similar == db.similar
  }

  /** Only a document pending review can be approved; that releases all its sources and
      makes it wait to be reported again. */
  lemma ApproveEffect(db: Db, d: Id)
    ensures var r := Approve(db, d);
            && (r.outcome == NotFound <==> d !in db.docs)
            && (r.outcome == Invalid <==> d in db.docs && db.docs[d].status != PendingReview)
            && (r.outcome == Done <==> d in db.docs && db.docs[d].status == PendingReview)
            && (r.outcome != Done ==> r.db == db)
            && (r.outcome == Done ==>
                  && OnlyDoc(db, r.db, d) && OnlyReleased(db, r.db, d) && d in r.db.docs
                  && r.db.docs[d].status != PendingReview && r.db.docs[d].status != Rejected
                  && r.db.docs[d] == db.docs[d].(status := r.db.docs[d].status, notified := false))
  {
  }

  /** The sources of d are gone, with everything in the other tables that refers to one of
      them; nothing else about sources changes. */
  ghost predicate OnlyRemoved(db: Db, after: Db, d: Id) {
    && (forall s :: s in after.sources <==> s in db.sources && db.sources[s].doc != d)
    && (forall s :: s in after.sources ==> after.sources[s] == db.sources[s])
    && (forall a: Id, b: Id :: (a, b) in after.pairs <==> (a, b) in db.pairs && !Under(db, a, d) && !Under(db, b, d))
    && (forall k :: k in after.pairs ==> k in db.pairs && after.pairs[k] == db.pairs[k])
    && (forall a: Id, b: Id :: (a, b) in after.similar <==> (a, b) in db.similar && !Under(db, a, d) && !Under(db, b, d))
    && (forall k :: k in after.similar ==> k in db.similar && after.similar[k] == db.similar[k])
    && (forall r :: r in after.lsh <==> r in db.lsh && !Under(db, r.source, d))
  }

  lemma RemovedWithout(db: Db, d: Id)
    ensures OnlyRemoved(db, Without(db, SourcesOf(db, d)), d)
  {
    var gone := SourcesOf(db, d);
    assert forall s :: s in gone <==> Under(db, s, d);
  }

  /** Only a document pending review can be rejected; it stays, without its sources. */
  lemma RejectEffect(db: Db, d: Id)
    ensures var r := RejectPending(db, d);
            && (r.outcome == NotFound <==> d !in db.docs)
            && (r.outcome == Invalid <==> d in db.docs && db.docs[d].status != PendingReview)
            && (r.outcome == Done <==> d in db.docs && db.docs[d].status == PendingReview)
            && (r.outcome != Done ==> r.db == db)
            && (r.outcome == Done ==>
                  && OnlyDoc(db, r.db, d) && OnlyRemoved(db, r.db, d)
                  && d in r.db.docs && r.db.docs[d] == db.docs[d].(status := Rejected))
  {
    RemovedWithout(db, d);
  }

  /** Any existing document can be deleted, with its sources. */
  lemma DeleteEffect(db: Db, d: Id)
    ensures var r := Delete(db, d);
            && (r.outcome == NotFound <==> d !in db.docs)
            && (r.outcome == Done <==> d in db.docs)
            && (r.outcome != Done ==> r.db == db)
            && (r.outcome == Done ==> OnlyDoc(db, r.db, d) && OnlyRemoved(db, r.db, d) && d !in r.db.docs)
  {
    RemovedWithout(db, d);
  }

  // ----- finalisations -----

  /** A living finalised source under d shares bytes, wording or picture with the file,
      whatever its page count, or d is the document of the file itself. */
  ghost predicate Touches(db: Db, id: Id, fp: Fingerprint, d: Id)
    requires id in db.sources
  {
    db.sources[id].doc == d || exists y: Id :: Resembles(db, id, fp, y) && db.sources[y].doc == d
  }

  predicate Resembles(db: Db, id: Id, fp: Fingerprint, y: Id) {
    && Hashed(db, y) && y != id
    && (FpOf(db, y).sha == fp.sha || SameText(fp, FpOf(db, y)) || SameImage(fp, FpOf(db, y)))
  }

  /** The searches together find exactly the sources that resemble the file. */
  lemma CandidatesResemble(db: Db, id: Id, fp: Fingerprint, y: Id)
    requires LshOk(db) && FpsOk(db) && WellFormed(fp)
    ensures y in Candidates(db, id, fp) <==> Resembles(db, id, fp, y)
    ensures y in Candidates(db, id, fp) ==> Candidates(db, id, fp)[y].doc == db.sources[y].doc
  {
    if Hashed(db, y) && y != id {
      var g := FpOf(db, y);
      NearCounts(fp.simHash, g.simHash);
      NearCounts(fp.pHash, g.pHash);
      NearHitsExact(db, id, Sim, fp.simHash, SIM_HASH_MAX_DIST, y);
      NearHitsExact(db, id, Perceptual, fp.pHash, P_HASH_MAX_DIST, y);
    }
  }

  lemma TouchedDocs(db: Db, id: Id, fp: Fingerprint, d: Id)
    requires LshOk(db) && FpsOk(db) && WellFormed(fp) && id in db.sources
    ensures d in {db.sources[id].doc} + DocsOf(Candidates(db, id, fp)) <==> Touches(db, id, fp, d)
  {
    var found := Candidates(db, id, fp);
    if y: Id :| Resembles(db, id, fp, y) && db.sources[y].doc == d {
      CandidatesResemble(db, id, fp, y);
      HitDoc(found, y);
    }
    if d in DocsOf(found) {
      var y :| y in found && found[y].doc == d;
      CandidatesResemble(db, id, fp, y);
    }
  }

  // ----- title similarities -----

  /** One of the first hundred hits is refused by the constraints of the table: a source is
      gone, or the score lies outside 0..1. */
  ghost predicate Refused(db: Db, id: Id, hits: seq<SimilarHit>, i: int) {
    && 0 <= i < |hits| && i < 100 && hits[i].matched != 0 && hits[i].matched != id
    && !(id in db.sources && hits[i].matched in db.sources && 0.0 <= hits[i].score <= 1.0)
  }

  predicate HitAt(hits: seq<SimilarHit>, other: Id, i: int) {
    0 <= i < |hits| && i < 100 && hits[i].matched == other
  }

  /** The last of the first hundred hits on another source. */
  ghost predicate LastAt(hits: seq<SimilarHit>, other: Id, i: int) {
    HitAt(hits, other, i) && forall k :: i < k ==> !HitAt(hits, other, k)
  }

  /** The source is similar to exactly the other existing sources among the first hundred
      hits, in both directions with the last score; other similarities are as before. */
  ghost predicate SimilarReplaced(db: Db, after: Db, id: Id, hits: seq<SimilarHit>) {
    && after == db.(similar := after.similar)
    && (forall a: Id, b: Id :: a != id && b != id ==>
          && ((a, b) in after.similar <==> (a, b) in db.similar)
          && ((a, b) in db.similar ==> after.similar[(a, b)] == db.similar[(a, b)]))
    && (id, id) !in after.similar
    && (forall y: Id :: y != id ==>
          && ((id, y) in after.similar <==> y != 0 && exists i :: HitAt(hits, y, i))
          && ((y, id) in after.similar <==> (id, y) in after.similar)
          && (forall i :: y != 0 && LastAt(hits, y, i) ==>
                after.similar[(id, y)] == hits[i].score && after.similar[(y, id)] == hits[i].score))
  }

  lemma ReplaceEffect(db: Db, id: Id, hits: seq<SimilarHit>)
    ensures var r := ReplaceSimilar(db, id, hits);
            && (r.outcome == Conflict <==> exists i :: Refused(db, id, hits, i))
            && (r.outcome == Done <==> !exists i :: Refused(db, id, hits, i))
            && (r.outcome != Done ==> r.db == db)
            && (r.outcome == Done ==> SimilarReplaced(db, r.db, id, hits))
  {
    var r, kept := ReplaceSimilar(db, id, hits), FirstSimilar(hits);
    forall i
      ensures 0 <= i < |kept| && Violates(db, id, kept[i]) <==> Refused(db, id, hits, i)
    {
    }
    if r.outcome == Done {
      ReplacedOthers(db, id, hits);
      forall y: Id | y != id
        ensures (id, y) in r.db.similar <==> y != 0 && exists i :: HitAt(hits, y, i)
        ensures (y, id) in r.db.similar <==> (id, y) in r.db.similar
        ensures forall i :: y != 0 && LastAt(hits, y, i) ==>
                  r.db.similar[(id, y)] == hits[i].score && r.db.similar[(y, id)] == hits[i].score
      {
        ReplacedWith(db, id, hits, y);
      }
    }
  }

  lemma ReplacedOthers(db: Db, id: Id, hits: seq<SimilarHit>)
    ensures var after := WrittenSimilar(Others(db.similar, id), id, FirstSimilar(hits));
            && (id, id) !in after
            && forall a: Id, b: Id :: a != id && b != id ==>
                 && ((a, b) in after <==> (a, b) in db.similar)
                 && ((a, b) in db.similar ==> after[(a, b)] == db.similar[(a, b)])
  {
    var rest, kept := Others(db.similar, id), FirstSimilar(hits);
    WrittenMeaning(rest, id, kept, id, id);
    forall a: Id, b: Id | a != id && b != id
      ensures (a, b) in WrittenSimilar(rest, id, kept) <==> (a, b) in db.similar
      ensures (a, b) in db.similar ==> WrittenSimilar(rest, id, kept)[(a, b)] == db.similar[(a, b)]
    {
      WrittenMeaning(rest, id, kept, a, b);
    }
  }

  lemma KeptHit(hits: seq<SimilarHit>, id: Id, y: Id, i: int)
    requires y != id && y != 0
    ensures HitOn(FirstSimilar(hits), id, y, i) <==> HitAt(hits, y, i)
    ensures HitAt(hits, y, i) ==> FirstSimilar(hits)[i] == hits[i]
  {
  }

  lemma ReplacedWith(db: Db, id: Id, hits: seq<SimilarHit>, y: Id)
    requires y != id
    ensures var after := WrittenSimilar(Others(db.similar, id), id, FirstSimilar(hits));
            && ((id, y) in after <==> y != 0 && exists i :: HitAt(hits, y, i))
            && ((y, id) in after <==> (id, y) in after)
            && (forall i :: y != 0 && LastAt(hits, y, i) ==>
                  (id, y) in after && after[(id, y)] == hits[i].score && after[(y, id)] == hits[i].score)
  {
    var rest, kept := Others(db.similar, id), FirstSimilar(hits);
    var after := WrittenSimilar(rest, id, kept);
    WrittenMeaning(rest, id, kept, id, y);
    WrittenMeaning(rest, id, kept, y, id);
    if y != 0 {
      forall i
        ensures HitOn(kept, id, y, i) <==> HitAt(hits, y, i)
      {
        KeptHit(hits, id, y, i);
      }
      forall i | LastAt(hits, y, i)
        ensures (id, y) in after && after[(id, y)] == hits[i].score && after[(y, id)] == hits[i].score
      {
        assert HitOn(kept, id, y, i);
        LastIsLast(hits, id, y, i, after[(id, y)]);
      }
    }
  }

  lemma LastIsLast(hits: seq<SimilarHit>, id: Id, y: Id, i: int, score: real)
    requires y != id && y != 0 && LastAt(hits, y, i) && LastHit(FirstSimilar(hits), id, y, score)
    ensures score == hits[i].score
  {
    var kept := FirstSimilar(hits);
    var k :| HitOn(kept, id, y, k) && kept[k].score == score && forall l :: k < l < |kept| ==> kept[l].matched != y;
    KeptHit(hits, id, y, k);
    KeptHit(hits, id, y, i);
  }
}
