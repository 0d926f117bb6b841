/** Whole runs of the document store: what holds after any sequence of transactions. */
module Runs {
  import opened Fingerprints
  import opened Invariants
  import opened Options
  import opened Preservation
  import opened Searches
  import opened Tables
  import opened Words

  datatype Action =
    | Upload(doc: Id, erp: string, trusted: bool, files: map<Id, int>, maxSources: int, notes: seq<string>)
    | Append(doc: Id, files: map<Id, int>, maxSources: int, note: string)
    | Hash(source: Id, fp: Fingerprint, extra: set<Id>)
    | Accept(doc: Id)
    | Decline(doc: Id)
    | Remove(doc: Id)
    | Retitle(source: Id, hits: seq<SimilarHit>)

  /** Fingerprints come from analysing a file. */
  predicate Formed(a: Action) {
    a.Hash? ==> WellFormed(a.fp)
  }

  predicate AllFormed(acts: seq<Action>) {
    forall i :: 0 <= i < |acts| ==> Formed(acts[i])
  }

  ghost function Do(db: Db, a: Action): Db {
    match a
    case Upload(d, erp, trusted, files, maxSources, notes) => Create(db, d, erp, trusted, files, maxSources, notes).db
    case Append(d, files, maxSources, note) => AddSources(db, d, files, maxSources, note).db
    case Hash(id, fp, extra) => Finalize(db, id, fp, extra)
    case Accept(d) => Approve(db, d).db
    case Decline(d) => RejectPending(db, d).db
    case Remove(d) => Delete(db, d).db
    case Retitle(id, hits) => ReplaceSimilar(db, id, hits).db
  }

  ghost function Run(acts: seq<Action>): Db {
    if acts == [] then EMPTY else Do(Run(acts[..|acts| - 1]), acts[|acts| - 1])
  }

  lemma EmptyInv()
    ensures Inv(EMPTY)
  {
  }

  lemma DoKeeps(db: Db, a: Action)
    requires Inv(db) && Formed(a)
    ensures Inv(Do(db, a))
  {
    match a
    case Upload(d, erp, trusted, files, maxSources, notes) => CreateKeeps(db, d, erp, trusted, files, maxSources, notes);
    case Append(d, files, maxSources, note) => AddSourcesKeeps(db, d, files, maxSources, note);
    case Hash(id, fp, extra) => FinalizeKeeps(db, id, fp, extra);
    case Accept(d) => ApproveKeeps(db, d);
    case Decline(d) => RejectKeeps(db, d);
    case Remove(d) => DeleteKeeps(db, d);
    case Retitle(id, hits) => ReplaceSimilarKeeps(db, id, hits);
  }

  /** Every reachable state satisfies the invariants. */
  lemma {:induction false} RunInv(acts: seq<Action>)
    requires AllFormed(acts)
    ensures Inv(Run(acts))
  {
    if acts == [] {
      EmptyInv();
    } else {
      RunInv(acts[..|acts| - 1]);
      DoKeeps(Run(acts[..|acts| - 1]), acts[|acts| - 1]);
    }
  }

  // ----- no lost duplicate, and none invented -----

  /** In every reachable state two living finalised sources are recorded as a pair, in
      both directions and with the score and kind of their match, exactly when their
      fingerprints match. */
  lemma NoLostDuplicate(acts: seq<Action>, a: Id, b: Id)
    requires AllFormed(acts)
    ensures var db := Run(acts);
            (a, b) in db.pairs <==> a != b && Hashed(db, a) && Hashed(db, b) && Link(FpOf(db, a), FpOf(db, b)).Some?
    ensures var db := Run(acts);
            (a, b) in db.pairs ==>
              && (b, a) in db.pairs && db.pairs[(a, b)] == db.pairs[(b, a)]
              && db.pairs[(a, b)].score == Link(FpOf(db, a), FpOf(db, b)).value.score
              && db.pairs[(a, b)].kind == Link(FpOf(db, a), FpOf(db, b)).value.kind
  {
    RunInv(acts);
    var db := Run(acts);
    assert (a, b) in db.pairs <==> Paired(db, a, b);
    assert (b, a) in db.pairs <==> Paired(db, b, a);
    PairedSymmetric(db, a, b);
  }

  /** The later member of a recorded pair is a duplicate, both members have a score at
      least that of the pair, and a unique source has no pair. */
  lemma PairRoles(acts: seq<Action>, a: Id, b: Id)
    requires AllFormed(acts) && (a, b) in Run(acts).pairs
    ensures var db := Run(acts);
            && Hashed(db, a) && Hashed(db, b)
            && (Before(db, a, b) ==> db.sources[b].role == Duplicate)
            && db.sources[a].role != Unique && db.sources[a].score.Some?
            && db.pairs[(a, b)].score <= db.sources[a].score.value
  {
    RunInv(acts);
    var db := Run(acts);
    assert Paired(db, a, b) && RoleOk(db, a) && RoleOk(db, b);
    PairedSymmetric(db, a, b);
  }

  /** In every reachable state the band index answers exactly what a scan over all
      stored hashes would, for every distance bound below the number of bands. */
  lemma IndexIsExact(acts: seq<Action>, except: Id, hash: HashKind, value: uint64, maxDist: int, y: Id)
    requires AllFormed(acts) && maxDist < LSH_BANDS
    ensures var db := Run(acts);
            y in NearHits(db, except, hash, value, maxDist) <==>
              && Hashed(db, y) && y != except && value != 0 && StoredHash(FpOf(db, y), hash) != 0
              && Distance(value, StoredHash(FpOf(db, y), hash)) <= maxDist
  {
    RunInv(acts);
    NearHitsExact(Run(acts), except, hash, value, maxDist, y);
  }

  // ----- document status -----

  predicate Shareable(status: Status) {
    status == Completed || status == Grouped
  }

  ghost predicate AllHashed(db: Db, d: Id) {
    forall s :: Under(db, s, d) ==> db.sources[s].fp.Some?
  }

  /** A rejected document has no sources. Any other one is processing while a source has no
      fingerprint; else pending review while a duplicate is not released; else grouped when
      it has a duplicate or an original, and completed when all its sources are unique. */
  ghost predicate StatusSays(db: Db, d: Id)
    requires d in db.docs
  {
    var status := db.docs[d].status;
    if status == Rejected then forall s :: !Under(db, s, d)
    else
      && (status == Processing <==> exists s :: Under(db, s, d) && db.sources[s].fp.None?)
      && (status == PendingReview <==>
            AllHashed(db, d) && exists s :: Under(db, s, d) && db.sources[s].role == Duplicate && !db.sources[s].released)
      && (status == Grouped <==>
            && AllHashed(db, d)
            && (forall s :: Under(db, s, d) && db.sources[s].role == Duplicate ==> db.sources[s].released)
            && exists s :: Under(db, s, d) && (db.sources[s].role == Duplicate || db.sources[s].role == Original))
      && (status == Completed <==> AllHashed(db, d) && forall s :: Under(db, s, d) ==> db.sources[s].role == Unique)
  }

  lemma StatusMeaning(db: Db, d: Id)
    requires StatusOk(db) && d in db.docs
    ensures StatusSays(db, d)
  {
    if db.docs[d].status == Rejected {
      forall s
        ensures !Under(db, s, d)
      {
        assert s !in SourcesOf(db, d);
      }
    }
  }

  /** The stored status is the one the sources deserve, except that a rejected document
      has no sources; a shareable document hides neither an unhashed nor a held source. */
  lemma StatusIsDerived(acts: seq<Action>, d: Id)
    requires AllFormed(acts) && d in Run(acts).docs
    ensures var db := Run(acts);
            if db.docs[d].status == Rejected then SourcesOf(db, d) == {}
            else db.docs[d].status == Derived(db.sources, d)
    ensures var db := Run(acts);
            Shareable(db.docs[d].status) ==>
              forall s :: s in SourcesOf(db, d) ==> Hashed(db, s) && !IsHeld(db.sources[s])
    ensures StatusSays(Run(acts), d)
  {
    RunInv(acts);
    StatusMeaning(Run(acts), d);
  }

  /** Title similarities come in mirror images between two different living sources. */
  lemma SimilarIsSymmetric(acts: seq<Action>, a: Id, b: Id)
    requires AllFormed(acts) && (a, b) in Run(acts).similar
    ensures var db := Run(acts);
            && a != b && a in db.sources && b in db.sources
            && (b, a) in db.similar && db.similar[(b, a)] == db.similar[(a, b)]
            && 0.0 <= db.similar[(a, b)] <= 1.0
  {
    RunInv(acts);
  }

  // ----- confluence -----

  predicate Keeps(a: Action) {
    !a.Decline? && !a.Remove?
  }

  predicate NothingRemoved(acts: seq<Action>) {
    forall i :: 0 <= i < |acts| ==> Keeps(acts[i])
  }

  /** A role and a score that are fully explained by the recorded pairs. */
  ghost predicate RoleExact(db: Db, a: Id)
    requires a in db.sources
  {
    var s := db.sources[a];
    && RoleOk(db, a)
    && (s.role != Unique ==> exists b: Id :: Paired(db, a, b) && PairOf(db, a, b).score == s.score.value)
    && (s.role == Duplicate ==> exists b: Id :: Paired(db, a, b) && Before(db, b, a))
  }

  ghost predicate RolesExact(db: Db) {
    forall a :: Hashed(db, a) ==> RoleExact(db, a)
  }

  /** Rows that differ in nothing but documents, release flags and added unhashed files. */
  ghost predicate KeepsRoles(db: Db, after: Db) {
    forall s :: (Hashed(after, s) <==> Hashed(db, s))
                && (Hashed(db, s) ==>
                      after.sources[s] == db.sources[s].(released := after.sources[s].released))
  }

  lemma KeepsRolesExact(db: Db, after: Db)
    requires KeepsRoles(db, after) && RolesExact(db) && RolesOk(after)
    ensures RolesExact(after)
  {
    forall a: Id, b: Id
      ensures Paired(after, a, b) <==> Paired(db, a, b)
      ensures Paired(db, a, b) ==> PairOf(after, a, b) == PairOf(db, a, b) && Before(after, b, a) == Before(db, b, a)
    {
    }
    forall a | Hashed(after, a)
      ensures RoleExact(after, a)
    {
      assert RoleExact(db, a);
      if after.sources[a].role != Unique {
        var b: Id :| Paired(db, a, b) && PairOf(db, a, b).score == db.sources[a].score.value;
        assert Paired(after, a, b);
      }
      if after.sources[a].role == Duplicate {
        var b: Id :| Paired(db, a, b) && Before(db, b, a);
        assert Paired(after, a, b) && Before(after, b, a);
      }
    }
  }

  lemma NewRoleExact(db: Db, after: Db, id: Id, fp: Fingerprint)
    requires Extends(db, after, id, fp) && NewRow(db, after, id, Linked(db, id, fp))
    ensures RoleExact(after, id)
  {
    NewRoleOk(db, after, id, fp);
    var hits := Linked(db, id, fp);
    var s := after.sources[id];
    if s.role != Unique {
      var m :| m in hits && hits[m].score == s.score.value;
      FinalPaired(db, after, id, fp, id, m);
      assert Paired(after, id, m) && PairOf(after, id, m).score == s.score.value;
    }
    if s.role == Duplicate {
      var m :| m in hits && !UploadedFirst(id, s.uploaded, m, hits[m].uploaded);
      FinalPaired(db, after, id, fp, id, m);
      UploadOrder(id, s.uploaded, m, hits[m].uploaded);
      assert Paired(after, id, m) && Before(after, m, id);
    }
  }

  lemma OldRoleExact(db: Db, after: Db, id: Id, fp: Fingerprint, a: Id)
    requires Extends(db, after, id, fp) && Hashed(db, a) && RoleExact(db, a)
    requires OldRow(db, after, id, Linked(db, id, fp), a)
    ensures RoleExact(after, a)
  {
    OldRoleOk(db, after, id, fp, a);
    var hits := Linked(db, id, fp);
    var was, now := db.sources[a], after.sources[a];
    FinalPaired(db, after, id, fp, a, id);
    if now.role != Unique {
      if a in hits && (was.role == Unique || now.score.value != was.score.value) {
        LinkScores(fp, FpOf(db, a));
        assert now.score.value == hits[a].score;
        assert Paired(after, a, id) && PairOf(after, a, id).score == now.score.value;
      } else {
        var b: Id :| Paired(db, a, b) && PairOf(db, a, b).score == was.score.value;
        FinalPaired(db, after, id, fp, a, b);
        assert Paired(after, a, b) && PairOf(after, a, b).score == now.score.value;
      }
    }
    if now.role == Duplicate {
      if was.role == Duplicate {
        var b: Id :| Paired(db, a, b) && Before(db, b, a);
        FinalPaired(db, after, id, fp, a, b);
        assert Paired(after, a, b) && Before(after, b, a);
      } else {
        UploadOrder(a, was.uploaded, id, after.sources[id].uploaded);
        assert Paired(after, a, id) && Before(after, id, a);
      }
    }
  }

  lemma FinalRolesExact(db: Db, id: Id, fp: Fingerprint, ids: set<Id>)
    requires RolesExact(db) && Ready(db, id, fp, ids)
    ensures RolesExact(Final(db, id, fp, ids))
  {
    var hits, after := Linked(db, id, fp), Final(db, id, fp, ids);
    FinalFrame(db, id, fp, hits, ids);
    forall a | Hashed(after, a)
      ensures RoleExact(after, a)
    {
      if a == id {
        NewRoleExact(db, after, id, fp);
      } else {
        assert OldRow(db, after, id, hits, a);
        OldRoleExact(db, after, id, fp, a);
      }
    }
  }

  lemma DoKeepsRoles(db: Db, a: Action)
    requires DocsOk(db) && !a.Hash? && Keeps(a)
    ensures KeepsRoles(db, Do(db, a))
  {
    if a.Accept? {
      ReleaseFrame(db.sources, a.doc);
    }
  }

  lemma HashRolesExact(db: Db, id: Id, fp: Fingerprint, extra: set<Id>)
    requires DocsOk(db) && LshOk(db) && FpsOk(db) && WellFormed(fp) && RolesExact(db)
    ensures RolesExact(Finalize(db, id, fp, extra))
  {
    if fp.sha != "" && id in db.sources && db.sources[id].fp.None? {
      FinalizeIsFinal(db, id, fp, extra);
      FinalRolesExact(db, id, fp, {db.sources[id].doc} + DocsOf(Candidates(db, id, fp)) + extra);
    }
  }

  lemma DoRolesExact(db: Db, a: Action)
    requires Inv(db) && Formed(a) && Keeps(a) && RolesExact(db) && RolesOk(Do(db, a))
    ensures RolesExact(Do(db, a))
  {
    if a.Hash? {
      HashRolesExact(db, a.source, a.fp, a.extra);
    } else {
      DoKeepsRoles(db, a);
      KeepsRolesExact(db, Do(db, a));
    }
  }

  lemma {:induction false} RunRolesExact(acts: seq<Action>)
    requires AllFormed(acts) && NothingRemoved(acts)
    ensures RolesExact(Run(acts))
  {
    if acts != [] {
      var front, a := acts[..|acts| - 1], acts[|acts| - 1];
      RunRolesExact(front);
      RunInv(front);
      RunInv(acts);
      DoRolesExact(Run(front), a);
    }
  }

  /** The same sources with the same fingerprints and upload times, whatever else. */
  ghost predicate SameFiles(x: Db, y: Db) {
    && x.sources.Keys == y.sources.Keys
    && (forall s :: s in x.sources ==> x.sources[s].fp == y.sources[s].fp
                                       && x.sources[s].uploaded == y.sources[s].uploaded)
  }

  lemma SameRole(x: Db, y: Db, a: Id)
    requires SameFiles(x, y) && Hashed(x, a) && RoleExact(x, a) && RoleExact(y, a)
    ensures x.sources[a].role == y.sources[a].role && x.sources[a].score == y.sources[a].score
  {
    RoleFollows(x, y, a);
    RoleFollows(y, x, a);
  }

  /** One half of the comparison. */
  lemma RoleFollows(x: Db, y: Db, a: Id)
    requires SameFiles(x, y) && Hashed(x, a) && RoleExact(x, a) && RoleOk(y, a)
    ensures x.sources[a].role != Unique ==> y.sources[a].role != Unique
    ensures x.sources[a].role == Duplicate ==> y.sources[a].role == Duplicate
    ensures x.sources[a].role != Unique ==> x.sources[a].score.value <= y.sources[a].score.value
  {
    if x.sources[a].role != Unique {
      var b: Id :| Paired(x, a, b) && PairOf(x, a, b).score == x.sources[a].score.value;
      assert Paired(y, a, b) && PairOf(y, a, b) == PairOf(x, a, b);
    }
    if x.sources[a].role == Duplicate {
      var b: Id :| Paired(x, a, b) && Before(x, b, a);
      assert Paired(y, a, b) && Before(y, b, a);
    }
  }

  /** When nothing is removed, every source's role, score and pairs depend only on the
      fingerprints and the upload order, not on the order in which hashing finished. */
  lemma Confluence(first: seq<Action>, second: seq<Action>, a: Id)
    requires AllFormed(first) && AllFormed(second) && NothingRemoved(first) && NothingRemoved(second)
    requires SameFiles(Run(first), Run(second)) && a in Run(first).sources
    ensures Run(first).sources[a].role == Run(second).sources[a].role
    ensures Run(first).sources[a].score == Run(second).sources[a].score
    ensures Run(first).pairs == Run(second).pairs
  {
    var x, y := Run(first), Run(second);
    RunInv(first);
    RunInv(second);
    RunRolesExact(first);
    RunRolesExact(second);
    if Hashed(x, a) {
      SameRole(x, y, a);
    }
    SamePairs(x, y);
  }

  /** Pairs depend on the fingerprints alone, even after removals. */
  lemma SamePairs(x: Db, y: Db)
    requires SameFiles(x, y) && PairsOk(x) && PairsOk(y)
    ensures x.pairs == y.pairs
  {
    forall a: Id, b: Id
      ensures (a, b) in x.pairs <==> (a, b) in y.pairs
      ensures (a, b) in x.pairs ==> x.pairs[(a, b)] == y.pairs[(a, b)]
    {
      assert Paired(x, a, b) <==> Paired(y, a, b);
    }
    forall k
      ensures k in x.pairs <==> k in y.pairs
      ensures k in x.pairs ==> x.pairs[k] == y.pairs[k]
    {
      assert k == (k.0, k.1);
    }
  }

  /** What an exact role says about the pair table. */
  ghost predicate RoleByPairs(db: Db, a: Id)
    requires a in db.sources
  {
    var s := db.sources[a];
    && (s.role == Unique <==> forall b: Id :: (a, b) !in db.pairs)
    && (s.role == Duplicate <==> exists b: Id :: (a, b) in db.pairs && b in db.sources && Before(db, b, a))
    && (s.score.Some? <==> s.role != Unique)
    && (s.score.Some? ==>
          && (exists b: Id :: (a, b) in db.pairs && db.pairs[(a, b)].score == s.score.value)
          && (forall b: Id :: (a, b) in db.pairs ==> db.pairs[(a, b)].score <= s.score.value))
  }

  lemma ExactByPairs(db: Db, a: Id)
    requires PairsOk(db) && Hashed(db, a) && RoleExact(db, a)
    ensures RoleByPairs(db, a)
  {
  }

  /** When nothing is removed, a source is unique exactly when it has no pair, a
      duplicate exactly when a paired source was uploaded earlier, and otherwise the
      original; its score is the best score of its pairs. */
  lemma RolesByPairs(acts: seq<Action>, a: Id)
    requires AllFormed(acts) && NothingRemoved(acts) && Hashed(Run(acts), a)
    ensures RoleByPairs(Run(acts), a)
  {
    RunInv(acts);
    RunRolesExact(acts);
    ExactByPairs(Run(acts), a);
  }
}
