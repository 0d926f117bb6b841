/** Roles, scores and pairs do not depend on the order in which hashing finishes, but
    the review hold does: a source that is finalised before its earlier-uploaded match
    is released and stays released when it later turns into a duplicate. */
module OrderMatters {
  import opened Fingerprints
  import opened Histories
  import opened Invariants
  import opened Options
  import opened Runs
  import opened Tables
  import N = Notes

  const FILE := Fingerprint("same", "", 0, 0, false, false, 1)
  const EARLY: Action := Upload(0, "erp-0", false, map[10 := 1], 4, [])
  const LATE: Action := Upload(1, "erp-1", false, map[11 := 2], 4, [])
  const HASH_EARLY: Action := Hash(10, FILE, {})
  const HASH_LATE: Action := Hash(11, FILE, {})

  const UPLOADS := [EARLY, LATE]

  /** Two untrusted documents with one file each, some of them hashed. */
  ghost predicate TwoFiles(db: Db, hashed: set<Id>) {
    && db.docs.Keys == {0, 1} && !db.docs[1].trusted
    && db.sources.Keys == {10, 11}
    && db.sources[10].doc == 0 && db.sources[10].uploaded == 1
    && db.sources[11].doc == 1 && db.sources[11].uploaded == 2
    && (forall s :: s in db.sources ==> db.sources[s].fp == if s in hashed then Some(FILE) else None)
  }

  lemma OneFile(f: Id, at: int)
    ensures |map[f := at]| == 1
  {
  }

  lemma OneUpload(db: Db, d: Id, erp: string, f: Id, at: int)
    requires d !in db.docs && f !in db.sources && forall e :: e in db.docs ==> db.docs[e].erp != erp
    ensures var after := Create(db, d, erp, false, map[f := at], 4, []).db;
            && after.docs == db.docs[d := Document(erp, false, Processing, false, N.Log([]))]
            && after.sources == db.sources + NewSources(d, map[f := at])
  {
    OneFile(f, at);
    assert f in map[f := at];
  }

  lemma OneNewSource(sources: map<Id, Source>, d: Id, f: Id, at: int)
    ensures sources + NewSources(d, map[f := at]) == sources[f := Source(d, at, None, Unique, None, true)]
  {
  }

  lemma FirstUploaded()
    ensures var one := Run([EARLY]);
            && one.docs == map[0 := Document("erp-0", false, Processing, false, N.Log([]))]
            && one.sources == map[10 := Source(0, 1, None, Unique, None, true)]
  {
    RunAppend([], EARLY);
    assert [] + [EARLY] == [EARLY];
    OneUpload(EMPTY, 0, "erp-0", 10, 1);
    OneNewSource(EMPTY.sources, 0, 10, 1);
  }

  lemma Uploaded()
    ensures TwoFiles(Run(UPLOADS), {})
  {
    FirstUploaded();
    RunAppend([EARLY], LATE);
    assert [EARLY] + [LATE] == UPLOADS;
    var one := Run([EARLY]);
    assert "erp-0"[4] != "erp-1"[4];
    OneUpload(one, 1, "erp-1", 11, 2);
    OneNewSource(one.sources, 1, 11, 2);
  }

  lemma OneHash(db: Db, hashed: set<Id>, x: Id)
    requires TwoFiles(db, hashed) && x in {10, 11} - hashed
    ensures TwoFiles(Finalize(db, x, FILE, {}), hashed + {x})
  {
    HashExtends(db, x, FILE, {});
    HashFrame(db, x, FILE, {});
  }

  lemma TwoHashes(pre: seq<Action>, x: Id, y: Id)
    requires TwoFiles(Run(pre), {}) && x != y && {x, y} == {10, 11}
    ensures TwoFiles(Run(pre + [Hash(x, FILE, {})]), {x})
    ensures TwoFiles(Run(pre + [Hash(x, FILE, {})] + [Hash(y, FILE, {})]), {10, 11})
  {
    var mid := pre + [Hash(x, FILE, {})];
    RunAppend(pre, Hash(x, FILE, {}));
    OneHash(Run(pre), {}, x);
    RunAppend(mid, Hash(y, FILE, {}));
    OneHash(Run(mid), {x}, y);
    assert {} + {x} == {x} && {x} + {y} == {10, 11};
  }

  /** With both fingerprints in, the later file is a duplicate, so its document waits
      for review exactly when it is held. */
  lemma LaterStatus(db: Db)
    requires TwoFiles(db, {10, 11}) && PairsOk(db) && RolesOk(db) && StatusOk(db)
    ensures db.docs[1].status == if IsHeld(db.sources[11]) then PendingReview else Grouped
  {
    assert Hashed(db, 10) && Hashed(db, 11);
    assert Paired(db, 11, 10) && Before(db, 10, 11) && RoleOk(db, 11);
    assert 11 in SourcesOf(db, 1);
    forall s | s in db.sources && db.sources[s].doc == 1
      ensures s == 11
    {
    }
  }

  lemma LaterStatusOfRun(acts: seq<Action>)
    requires AllFormed(acts) && TwoFiles(Run(acts), {10, 11})
    ensures Run(acts).docs[1].status == if IsHeld(Run(acts).sources[11]) then PendingReview else Grouped
  {
    RunInv(acts);
    LaterStatus(Run(acts));
  }

  lemma FormedAppend(acts: seq<Action>, a: Action)
    requires AllFormed(acts) && Formed(a)
    ensures AllFormed(acts + [a])
  {
  }

  ghost predicate Ends(acts: seq<Action>, status: Status) {
    AllFormed(acts) && 1 in Run(acts).docs && Run(acts).docs[1].status == status
  }

  /** The later file finished last is held, and its document waits. */
  lemma InOrderWaits(pre: seq<Action>)
    requires AllFormed(pre) && TwoFiles(Run(pre), {})
    ensures Ends(pre + [HASH_EARLY] + [HASH_LATE], PendingReview)
  {
    var mid := pre + [HASH_EARLY];
    FormedAppend(pre, HASH_EARLY);
    FormedAppend(mid, HASH_LATE);
    TwoHashes(pre, 10, 11);
    HeldLast(mid);
    LaterStatusOfRun(mid + [HASH_LATE]);
  }

  lemma HeldLast(mid: seq<Action>)
    requires AllFormed(mid + [HASH_LATE]) && TwoFiles(Run(mid), {10})
    ensures Hashed(Run(mid + [HASH_LATE]), 11) && IsHeld(Run(mid + [HASH_LATE]).sources[11])
  {
    assert mid + [HASH_LATE] + [] == mid + [HASH_LATE];
    assert Hashed(Run(mid), 10) && Link(FILE, FpOf(Run(mid), 10)).Some? && Before(Run(mid), 10, 11);
    HeldExactly(mid, 11, FILE, {}, []);
  }

  /** The later file finished first is not held, and its document is done. */
  lemma ReversedIsDone(pre: seq<Action>)
    requires AllFormed(pre) && TwoFiles(Run(pre), {})
    ensures Ends(pre + [HASH_LATE] + [HASH_EARLY], Grouped)
  {
    var mid := pre + [HASH_LATE];
    FormedAppend(pre, HASH_LATE);
    FormedAppend(mid, HASH_EARLY);
    TwoHashes(pre, 11, 10);
    NotHeldFirst(pre);
    LaterStatusOfRun(mid + [HASH_EARLY]);
  }

  lemma NotHeldFirst(pre: seq<Action>)
    requires AllFormed(pre + [HASH_LATE] + [HASH_EARLY]) && TwoFiles(Run(pre), {})
    ensures var acts := pre + [HASH_LATE] + [HASH_EARLY];
            Hashed(Run(acts), 11) && !IsHeld(Run(acts).sources[11])
  {
    HeldExactly(pre, 11, FILE, {}, [HASH_EARLY]);
    assert !EarlierMatch(Run(pre), 11, FILE);
  }

  /** The same transactions leave the later document waiting for review in one order
      and finished in the other. */
  lemma OrderDecidesReview() returns (first: seq<Action>, second: seq<Action>)
    ensures multiset(first) == multiset(second)
    ensures Ends(first, PendingReview) && Ends(second, Grouped)
  {
    Uploaded();
    first, second := UPLOADS + [HASH_EARLY] + [HASH_LATE], UPLOADS + [HASH_LATE] + [HASH_EARLY];
    InOrderWaits(UPLOADS);
    ReversedIsDone(UPLOADS);
  }

  // ----- rejection is not final -----

  const DECLINE: Action := Decline(1)
  const MORE: Action := Append(1, map[12 := 3], 4, "")

  lemma DeclinedIsEmpty(db: Db)
    requires TwoFiles(db, {10, 11}) && db.docs[1].status == PendingReview
    ensures var after := Do(db, DECLINE);
            IsRejected(after, 1) && SourcesOf(after, 1) == {} && 12 !in after.sources
  {
  }

  /** A rejected document without sources takes a new file and is processing again. */
  lemma RejectedTakesMore(db: Db)
    requires IsRejected(db, 1) && SourcesOf(db, 1) == {} && 12 !in db.sources
    ensures var after := Do(db, MORE);
            1 in after.docs && after.docs[1].status == Processing
  {
    OneFile(12, 3);
    assert 12 in map[12 := 3];
  }

  /** A rejected document can be reached, and leaves that status when a file is added. */
  lemma RejectedIsNotFinal() returns (acts: seq<Action>)
    ensures AllFormed(acts + [MORE]) && IsRejected(Run(acts), 1)
    ensures Run(acts + [MORE]).docs.Keys >= {1} && Run(acts + [MORE]).docs[1].status == Processing
  {
    Uploaded();
    var hashed := UPLOADS + [HASH_EARLY] + [HASH_LATE];
    InOrderWaits(UPLOADS);
    TwoHashes(UPLOADS, 10, 11);
    acts := hashed + [DECLINE];
    FormedAppend(hashed, DECLINE);
    FormedAppend(acts, MORE);
    RunAppend(hashed, DECLINE);
    RunAppend(acts, MORE);
    DeclinedIsEmpty(Run(hashed));
    RejectedTakesMore(Run(acts));
  }
}
