/** The tables of the document store and what each transaction does to them, as
    functions. One statement is one read or one update of the tables. */
module Tables {
  import opened Fingerprints
  import opened Notes
  import opened Options
  import opened Words

  /** Row identifiers; `<` is the order of their text form. */
  type Id = nat

  datatype Status = Processing | Completed | Grouped | PendingReview | Rejected
  datatype Role = Unique | Original | Duplicate

  /** `trusted`: the owner is missing or an administrator. `erp` is case-folded. */
  datatype Document = Document(erp: string, trusted: bool, status: Status, notified: bool, note: string)

  /** `fp` holds the fingerprint columns; it is None until they are written. */
  datatype Source = Source(
    doc: Id, uploaded: int, fp: Option<Fingerprint>, role: Role, score: Option<real>, released: bool)

  datatype Pair = Pair(score: real, kind: Kind)
  datatype HashKind = Sim | Perceptual
  datatype LshRow = LshRow(source: Id, hash: HashKind, band: nat, bucket: nat)

  datatype Db = Db(
    docs: map<Id, Document>,
    sources: map<Id, Source>,
    pairs: map<(Id, Id), Pair>,
    lsh: set<LshRow>,
    similar: map<(Id, Id), real>)

  const EMPTY := Db(map[], map[], map[], {}, map[])

  predicate Hashed(db: Db, s: Id) {
    s in db.sources && db.sources[s].fp.Some?
  }

  function FpOf(db: Db, s: Id): Fingerprint
    requires Hashed(db, s)
  {
    db.sources[s].fp.value
  }

  // ----- the searches -----

  /** A match of some source, without that source's id. */
  datatype Hit = Hit(score: real, kind: Kind, pages: int, doc: Id, uploaded: int)

  type Hits = map<Id, Hit>

  function ExactHits(db: Db, except: Id, sha: string): Hits {
    map y | y in db.sources && Hashed(db, y) && y != except && FpOf(db, y).sha == sha
      :: Hit(100.0, Exact, 0, db.sources[y].doc, db.sources[y].uploaded)
  }

  function TextHits(db: Db, except: Id, norm: string): Hits {
    map y | y in db.sources && Hashed(db, y) && y != except && FpOf(db, y).textNorm == norm
      :: Hit(99.5, Text, FpOf(db, y).pages, db.sources[y].doc, db.sources[y].uploaded)
  }

  function StoredHash(fp: Fingerprint, hash: HashKind): uint64 {
    if hash.Sim? then fp.simHash else fp.pHash
  }

  /** Some band row of y carries the same bucket as the given hash. */
  predicate SharesBucket(db: Db, y: Id, hash: HashKind, value: uint64) {
    exists i :: 0 <= i < LSH_BANDS && LshRow(y, hash, i, Bands(value)[i]) in db.lsh
  }

  function NearHits(db: Db, except: Id, hash: HashKind, value: uint64, maxDist: int): Hits {
    if value == 0 then map[]
    else
      map y | y in db.sources && Hashed(db, y) && y != except && SharesBucket(db, y, hash, value)
              && StoredHash(FpOf(db, y), hash) != 0
              && Distance(value, StoredHash(FpOf(db, y), hash)) <= maxDist
        :: Hit(ScoreFromDistance(Distance(value, StoredHash(FpOf(db, y), hash)), 64),
               if hash.Sim? then Text else Visual,
               FpOf(db, y).pages, db.sources[y].doc, db.sources[y].uploaded)
  }

  /** Merging keeps one hit per source; a later one replaces an earlier one only when
      it scores strictly higher. */
  function Merge(d: Hits, s: Hits): Hits {
    map y | y in d.Keys + s.Keys :: if y in d && (y in s ==> s[y].score <= d[y].score) then d[y] else s[y]
  }

  /** What the second and third searches find, for the fingerprint's own kind. */
  function SecondHits(db: Db, id: Id, fp: Fingerprint): Hits {
    if fp.hasText && fp.textNorm != "" then TextHits(db, id, fp.textNorm) else map[]
  }

  function ThirdHits(db: Db, id: Id, fp: Fingerprint): Hits {
    if fp.hasText && fp.textNorm != "" then NearHits(db, id, Sim, fp.simHash, SIM_HASH_MAX_DIST)
    else if fp.hasVisual && fp.pHash != 0 then NearHits(db, id, Perceptual, fp.pHash, P_HASH_MAX_DIST)
    else map[]
  }

  function Candidates(db: Db, id: Id, fp: Fingerprint): Hits {
    Merge(Merge(ExactHits(db, id, fp.sha), SecondHits(db, id, fp)), ThirdHits(db, id, fp))
  }

  function Living(db: Db, hits: Hits): Hits {
    map y | y in hits && y in db.sources :: hits[y]
  }

  function Confident(fp: Fingerprint, hits: Hits): Hits {
    map y | y in hits && IsDuplicate(hits[y].kind, hits[y].score, fp.pages, hits[y].pages) :: hits[y]
  }

  function DocsOf(hits: Hits): set<Id> {
    set y | y in hits :: hits[y].doc
  }

  // ----- roles, scores, pairs -----

  /** Upload order, ties broken by id. */
  predicate UploadedFirst(a: Id, aTime: int, b: Id, bTime: int) {
    if aTime == bTime then a < b else aTime < bTime
  }

  function RoleAgainst(id: Id, uploaded: int, hits: Hits): Role {
    if hits == map[] then Unique
    else if exists m :: m in hits && !UploadedFirst(id, uploaded, m, hits[m].uploaded) then Duplicate
    else Original
  }

  ghost predicate IsBest(hits: Hits, best: real) {
    (exists m :: m in hits && hits[m].score == best) && forall m :: m in hits ==> hits[m].score <= best
  }

  lemma {:induction false} BestExists(hits: Hits)
    requires hits != map[]
    ensures exists best :: IsBest(hits, best)
    decreases |hits|
  {
    var m :| m in hits;
    if w :| w in hits && w != m {
      var rest := hits - {m};
      assert w in rest;
      BestExists(rest);
      var b :| IsBest(rest, b);
      var best := if hits[m].score > b then hits[m].score else b;
      forall y | y in hits
        ensures hits[y].score <= best
      {
        assert y != m ==> y in rest;
      }
      var v :| v in rest && rest[v].score == b;
      assert v in hits && hits[v].score == b;
      assert IsBest(hits, best);
    } else {
      assert IsBest(hits, hits[m].score);
    }
  }

  ghost function BestScore(hits: Hits): (best: real)
    requires hits != map[]
    ensures IsBest(hits, best)
  {
    BestExists(hits);
    var b :| IsBest(hits, b);
    b
  }

  /** A matched source takes its role against the new one, but a duplicate never
      becomes an original again, and its score only grows. */
  function Promoted(s: Source, role: Role, score: real): Source {
    var had := if s.score.Some? then s.score.value else 0.0;
    s.(role := if role == Original && s.role == Duplicate then Duplicate else role,
       score := Some(if score > had then score else had))
  }

  function Upserted(pairs: map<(Id, Id), Pair>, key: (Id, Id), score: real, kind: Kind): map<(Id, Id), Pair> {
    if key in pairs then
      pairs[key := Pair(if score > pairs[key].score then score else pairs[key].score,
                        if score >= pairs[key].score then kind else pairs[key].kind)]
    else pairs[key := Pair(score, kind)]
  }

  /** The band rows of one source. */
  function RowsOf(id: Id, fp: Fingerprint): set<LshRow> {
    if fp.hasText then HashRows(id, Sim, fp.simHash)
    else if fp.hasVisual then HashRows(id, Perceptual, fp.pHash)
    else {}
  }

  function HashRows(id: Id, hash: HashKind, value: uint64): set<LshRow> {
    if value == 0 then {} else set i | 0 <= i < LSH_BANDS :: LshRow(id, hash, i, Bands(value)[i])
  }

  // ----- document status -----

  predicate HasUnhashed(sources: map<Id, Source>, d: Id) {
    exists s :: s in sources && sources[s].doc == d && sources[s].fp.None?
  }

  predicate IsHeld(s: Source) {
    s.role == Duplicate && !s.released
  }

  predicate HasHeld(sources: map<Id, Source>, d: Id) {
    exists s :: s in sources && sources[s].doc == d && IsHeld(sources[s])
  }

  predicate HasGrouped(sources: map<Id, Source>, d: Id) {
    exists s :: s in sources && sources[s].doc == d && sources[s].role != Unique
  }

  /** The status a document deserves by its sources. */
  function Derived(sources: map<Id, Source>, d: Id): Status {
    if HasUnhashed(sources, d) then Processing
    else if HasHeld(sources, d) then PendingReview
    else if HasGrouped(sources, d) then Grouped
    else Completed
  }

  /** The status update and the notification update on one touched document. */
  function SettledDoc(doc: Document, sources: map<Id, Source>, d: Id): Document {
    var status := if doc.status == Rejected then Rejected else Derived(sources, d);
    doc.(status := status, notified := doc.notified || status != Processing)
  }

  // ----- finalising a fingerprint -----

  /** The sources after the new one and its matches have been written. */
  ghost function FinalSources(db: Db, id: Id, fp: Fingerprint, hits: Hits): map<Id, Source>
    requires id in db.sources && db.sources[id].doc in db.docs
  {
    var x := db.sources[id];
    var role := RoleAgainst(id, x.uploaded, hits);
    map s | s in db.sources ::
      if s == id then
        Source(x.doc, x.uploaded, Some(fp), role, if hits == map[] then None else Some(BestScore(hits)),
               db.docs[x.doc].trusted || role != Duplicate)
      else if s in hits then
        Promoted(db.sources[s],
                 if UploadedFirst(s, hits[s].uploaded, id, x.uploaded) then Original else Duplicate,
                 hits[s].score)
      else db.sources[s]
  }

  function PairKeys(id: Id, hits: Hits): set<(Id, Id)> {
    (set m | m in hits :: (id, m)) + (set m | m in hits :: (m, id))
  }

  function FinalPairs(pairs: map<(Id, Id), Pair>, id: Id, hits: Hits): map<(Id, Id), Pair>
    requires id !in hits
  {
    map k | k in pairs.Keys + PairKeys(id, hits) ::
      if k.0 == id && k.1 in hits then Upserted(pairs, k, hits[k.1].score, hits[k.1].kind)[k]
      else if k.1 == id && k.0 in hits then Upserted(pairs, k, hits[k.0].score, hits[k.0].kind)[k]
      else pairs[k]
  }

  function FinalLsh(lsh: set<LshRow>, id: Id, fp: Fingerprint): set<LshRow> {
    (set r | r in lsh && r.source != id) + RowsOf(id, fp)
  }

  function SettledDocs(docs: map<Id, Document>, sources: map<Id, Source>, ids: set<Id>): map<Id, Document> {
    map d | d in docs :: if d in ids then SettledDoc(docs[d], sources, d) else docs[d]
  }

  /** Everything one finalisation writes, given its living confident matches and the
      documents it locked. */
  ghost function Finalized(db: Db, id: Id, fp: Fingerprint, hits: Hits, ids: set<Id>): Db
    requires id in db.sources && db.sources[id].doc in db.docs && id !in hits
  {
    var sources := FinalSources(db, id, fp, hits);
    Db(SettledDocs(db.docs, sources, ids), sources, FinalPairs(db.pairs, id, hits),
       FinalLsh(db.lsh, id, fp), db.similar)
  }

  /** The transaction as one atomic step. `extra` are documents that were locked because
      a candidate of theirs disappeared before the locks were taken. */
  ghost function Finalize(db: Db, id: Id, fp: Fingerprint, extra: set<Id>): Db {
    if fp.sha == "" || id !in db.sources || db.sources[id].fp.Some? || db.sources[id].doc !in db.docs then db
    else
      var candidates := Candidates(db, id, fp);
      var hits := Confident(fp, candidates);
      Finalized(db, id, fp, hits, {db.sources[id].doc} + DocsOf(candidates) + extra)
  }

  // ----- the other transactions -----

  datatype Outcome = Done | NotFound | NoFiles | TooMany | Invalid | ErpTaken | Conflict

  datatype Reply = Reply(outcome: Outcome, db: Db)

  function NewSources(d: Id, files: map<Id, int>): map<Id, Source> {
    map f | f in files :: Source(d, files[f], None, Unique, None, true)
  }

  function SourcesOf(db: Db, d: Id): set<Id> {
    set s | s in db.sources && db.sources[s].doc == d
  }

  /** A row of the document d. */
  predicate Under(db: Db, s: Id, d: Id) {
    s in db.sources && db.sources[s].doc == d
  }

  /** Creating a document with its files (id -> upload time). */
  function Create(db: Db, d: Id, erp: string, trusted: bool, files: map<Id, int>, maxSources: int, notes: seq<string>): Reply {
    if files == map[] then Reply(NoFiles, db)
    else if |files| > maxSources then Reply(TooMany, db)
    else if d in db.docs || exists e :: e in db.docs && db.docs[e].erp == erp then Reply(ErpTaken, db)
    else if exists f :: f in files && f in db.sources then Reply(Conflict, db)
    else
      Reply(Done, db.(docs := db.docs[d := Document(erp, trusted, Processing, false, Log(notes))],
                      sources := db.sources + NewSources(d, files)))
  }

  /** Inserting files into a document under its row lock. */
  function InsertSources(db: Db, d: Id, files: map<Id, int>, maxSources: int, note: string): Reply {
    var most := if maxSources < 1 then 4 else maxSources;
    if d !in db.docs then Reply(NotFound, db)
    else if |SourcesOf(db, d)| + |files| > most then Reply(TooMany, db)
    else if exists f :: f in files && f in db.sources then Reply(Conflict, db)
    else
      var doc := db.docs[d];
      var merged := Log([doc.note, Clamp(note)]);
      Reply(Done, db.(docs := db.docs[d := doc.(status := Processing, notified := false,
                                                note := if merged != "" then merged else doc.note)],
                      sources := db.sources + NewSources(d, files)))
  }

  /** Adding files: the service's checks, then the insertion. */
  function AddSources(db: Db, d: Id, files: map<Id, int>, maxSources: int, note: string): Reply {
    if d !in db.docs then Reply(NotFound, db)
    else if files == map[] then Reply(NoFiles, db)
    else if |files| > maxSources || |SourcesOf(db, d)| + |files| > maxSources then Reply(TooMany, db)
    else InsertSources(db, d, files, maxSources, note)
  }

  function Released(sources: map<Id, Source>, d: Id): map<Id, Source> {
    map s | s in sources :: if sources[s].doc == d then sources[s].(released := true) else sources[s]
  }

  function Approve(db: Db, d: Id): Reply {
    if d !in db.docs then Reply(NotFound, db)
    else if db.docs[d].status != PendingReview then Reply(Invalid, db)
    else
      var sources := Released(db.sources, d);
      var status := if HasUnhashed(sources, d) then Processing
                    else if HasGrouped(sources, d) then Grouped else Completed;
      Reply(Done, db.(sources := sources,
                      docs := db.docs[d := db.docs[d].(status := status, notified := false)]))
  }

  /** Deleting sources cascades to everything that refers to them. */
  function Without(db: Db, gone: set<Id>): Db {
    db.(sources := db.sources - gone,
        pairs := (map k | k in db.pairs && k.0 !in gone && k.1 !in gone :: db.pairs[k]),
        lsh := (set r | r in db.lsh && r.source !in gone),
        similar := (map k | k in db.similar && k.0 !in gone && k.1 !in gone :: db.similar[k]))
  }

  function RejectPending(db: Db, d: Id): Reply {
    if d !in db.docs then Reply(NotFound, db)
    else if db.docs[d].status != PendingReview then Reply(Invalid, db)
    else
      var rest := Without(db, SourcesOf(db, d));
      Reply(Done, rest.(docs := rest.docs[d := rest.docs[d].(status := Rejected)]))
  }

  function Delete(db: Db, d: Id): Reply {
    if d !in db.docs then Reply(NotFound, db)
    else
      var rest := Without(db, SourcesOf(db, d));
      Reply(Done, rest.(docs := rest.docs - {d}))
  }

  const MAX_SIMILAR_KEPT := 100

  /** The id that stands for none. */
  const NIL: Id := 0

  /** One of the title hits of a source. */
  datatype SimilarHit = SimilarHit(matched: Id, score: real)

  function WrittenSimilar(similar: map<(Id, Id), real>, id: Id, hits: seq<SimilarHit>): map<(Id, Id), real> {
    if hits == [] then similar
    else
      var before, hit := WrittenSimilar(similar, id, hits[..|hits| - 1]), hits[|hits| - 1];
      if hit.matched == NIL || hit.matched == id then before
      else before[(id, hit.matched) := hit.score][(hit.matched, id) := hit.score]
  }

  function FirstSimilar(hits: seq<SimilarHit>): seq<SimilarHit> {
    if |hits| > MAX_SIMILAR_KEPT then hits[..MAX_SIMILAR_KEPT] else hits
  }

  /** The similarities that do not involve a source. */
  function Others(similar: map<(Id, Id), real>, id: Id): map<(Id, Id), real> {
    map k | k in similar && k.0 != id && k.1 != id :: similar[k]
  }

  /** A hit that the constraints of the table refuse: one of the sources is gone, or the
      score lies outside 0..1. */
  predicate Violates(db: Db, id: Id, hit: SimilarHit) {
    hit.matched != NIL && hit.matched != id
    && (id !in db.sources || hit.matched !in db.sources || !(0.0 <= hit.score <= 1.0))
  }

  /** Replaces every title similarity of a source, in both directions; a refused hit
      undoes everything. */
  function ReplaceSimilar(db: Db, id: Id, hits: seq<SimilarHit>): Reply {
    var kept := FirstSimilar(hits);
    if exists i :: 0 <= i < |kept| && Violates(db, id, kept[i]) then Reply(Conflict, db)
    else
      Reply(Done, db.(similar := WrittenSimilar(Others(db.similar, id), id, kept)))
  }
}
