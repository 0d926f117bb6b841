/** What members and administrators see of a document, for every run and every
    interleaving: its status, when it is reported, and what approval does to it. */
module Reviews {
  import opened Effects
  import opened Fingerprints
  import opened Histories
  import opened Interleavings
  import opened Invariants
  import opened Preservation
  import opened Protocol
  import opened Runs
  import opened Searches
  import opened Sequences
  import opened Serializability
  import opened Tables

  // ----- one document per label -----

  ghost predicate ErpUnique(db: Db) {
    forall d, e :: d in db.docs && e in db.docs && db.docs[d].erp == db.docs[e].erp ==> d == e
  }

  /** No row is renamed, and none appears under a label in use. */
  ghost predicate LabelsKept(db: Db, after: Db) {
    && (forall d :: d in db.docs && d in after.docs ==> after.docs[d].erp == db.docs[d].erp)
    && (forall d, e :: d in after.docs && d !in db.docs && e in after.docs && e != d ==>
          e in db.docs && after.docs[e].erp != after.docs[d].erp)
  }

  lemma LabelsUnique(db: Db, after: Db)
    requires ErpUnique(db) && LabelsKept(db, after)
    ensures ErpUnique(after)
  {
  }

  lemma CreateLabels(db: Db, d: Id, erp: string, trusted: bool, files: map<Id, int>, max: int, notes: seq<string>)
    ensures LabelsKept(db, Create(db, d, erp, trusted, files, max, notes).db)
  {
    CreateOutcome(db, d, erp, trusted, files, max, notes);
    if Create(db, d, erp, trusted, files, max, notes).outcome == Done {
      CreateEffect(db, d, erp, trusted, files, max, notes);
    }
  }

  lemma HashLabels(db: Db, id: Id, fp: Fingerprint, extra: set<Id>)
    ensures LabelsKept(db, Finalize(db, id, fp, extra))
  {
  }

  lemma LabelsStay(db: Db, after: Db)
    requires forall d :: d in after.docs ==> d in db.docs && after.docs[d].erp == db.docs[d].erp
    ensures LabelsKept(db, after)
  {
  }

  lemma StepLabels(db: Db, a: Action)
    ensures LabelsKept(db, Do(db, a))
  {
    match a
    case Upload(d, erp, trusted, files, max, notes) => CreateLabels(db, d, erp, trusted, files, max, notes);
    case Hash(id, fp, extra) => HashLabels(db, id, fp, extra);
    case _ => LabelsStay(db, Do(db, a));
  }

  /** After every run no two documents share an ERP label. */
  lemma {:induction false} OneDocumentPerLabel(acts: seq<Action>)
    ensures ErpUnique(Run(acts))
  {
    if acts != [] {
      var front, a := acts[..|acts| - 1], acts[|acts| - 1];
      OneDocumentPerLabel(front);
      StepLabels(Run(front), a);
      LabelsUnique(Run(front), Run(acts));
    }
  }

  lemma LabelsInInterleavings(h: LockHash, events: seq<Event>)
    ensures ErpUnique(Exec(h, events).db)
  {
    ExecIsSerial(h, events);
    OneDocumentPerLabel(Serial(h, events));
  }

  // ----- approval -----

  /** Every source of d is released, so that none is held. */
  ghost predicate NoneHeld(db: Db, d: Id) {
    forall s :: Under(db, s, d) ==> db.sources[s].released
  }

  /** What approval makes of one source of the document. */
  lemma ApprovedSource(db: Db, d: Id, x: Id)
    requires d in db.docs && db.docs[d].status == PendingReview && Under(db, x, d)
    ensures var after := Do(db, Accept(d));
            && Under(after, x, d) && after.sources[x] == db.sources[x].(released := true)
  {
    ApproveEffect(db, d);
  }

  lemma ApprovedDocument(db: Db, d: Id)
    requires d in db.docs && db.docs[d].status == PendingReview
    ensures var after := Do(db, Accept(d));
            && d in after.docs && !after.docs[d].notified && after.docs[d].status != Rejected
            && (forall s :: Under(after, s, d) ==> Under(db, s, d))
  {
    ApproveEffect(db, d);
  }

  /** Approving a document that waits for review releases what it held and leaves it
      grouped, to be reported again. */
  ghost predicate Cleared(db: Db, d: Id) {
    && d in db.docs && db.docs[d].status == Grouped && !db.docs[d].notified
    && NoneHeld(db, d) && AllHashed(db, d)
  }

  lemma HeldWhenPending(db: Db, d: Id) returns (x: Id)
    requires StatusOk(db) && d in db.docs && db.docs[d].status == PendingReview
    ensures AllHashed(db, d) && Under(db, x, d) && db.sources[x].role == Duplicate
  {
    StatusMeaning(db, d);
    x :| Under(db, x, d) && db.sources[x].role == Duplicate && !db.sources[x].released;
  }

  lemma GroupedWhenReleased(db: Db, d: Id, x: Id)
    requires StatusOk(db) && d in db.docs && db.docs[d].status != Rejected && AllHashed(db, d) && NoneHeld(db, d)
    requires Under(db, x, d) && db.sources[x].role == Duplicate
    ensures db.docs[d].status == Grouped
  {
    StatusMeaning(db, d);
  }

  lemma ApprovalReleases(db: Db, d: Id)
    requires d in db.docs && db.docs[d].status == PendingReview && AllHashed(db, d)
    ensures NoneHeld(Do(db, Accept(d)), d) && AllHashed(Do(db, Accept(d)), d)
  {
    var after := Do(db, Accept(d));
    ApprovedDocument(db, d);
    forall s | Under(after, s, d)
      ensures after.sources[s].released && after.sources[s].fp.Some?
    {
      ApprovedSource(db, d, s);
    }
  }

  lemma ApprovalClears(db: Db, d: Id)
    requires Inv(db) && d in db.docs && db.docs[d].status == PendingReview
    ensures Cleared(Do(db, Accept(d)), d)
  {
    ApprovalKeepsStatus(db, d);
    PendingClears(db, d);
  }

  lemma ApprovalKeepsStatus(db: Db, d: Id)
    requires Inv(db)
    ensures StatusOk(db) && StatusOk(Do(db, Accept(d)))
  {
    ApproveKeeps(db, d);
  }

  lemma PendingClears(db: Db, d: Id)
    requires StatusOk(db) && StatusOk(Do(db, Accept(d))) && d in db.docs && db.docs[d].status == PendingReview
    ensures Cleared(Do(db, Accept(d)), d)
  {
    var x := HeldWhenPending(db, d);
    ApprovedDocument(db, d);
    ApprovedSource(db, d, x);
    ApprovalReleases(db, d);
    GroupedWhenReleased(Do(db, Accept(d)), d, x);
  }

  lemma ApprovalOfRun(acts: seq<Action>, d: Id)
    requires AllFormed(acts) && d in Run(acts).docs && Run(acts).docs[d].status == PendingReview
    ensures Cleared(Run(acts + [Accept(d)]), d)
  {
    RunInv(acts);
    RunAppend(acts, Accept(d));
    ApprovalClears(Run(acts), d);
  }

  /** No source that an approval found is held again, until the next decision on the
      document. */
  lemma ApprovalLasts(pre: seq<Action>, d: Id, post: seq<Action>, x: Id)
    requires AllFormed(pre) && d in Run(pre).docs && Run(pre).docs[d].status == PendingReview
    requires forall i :: 0 <= i < |post| ==> !Decides(post[i], d)
    requires Under(Run(pre), x, d)
    ensures var now := Run(pre + [Accept(d)] + post); Under(now, x, d) && now.sources[x].released
  {
    RunInv(pre);
    RunAppend(pre, Accept(d));
    HashedWhenPending(Run(pre), d, x);
    ApprovedSource(Run(pre), d, x);
    HoldRun(pre + [Accept(d)], post, x);
  }

  lemma HashedWhenPending(db: Db, d: Id, x: Id)
    requires StatusOk(db) && d in db.docs && db.docs[d].status == PendingReview && Under(db, x, d)
    ensures Hashed(db, x)
  {
    StatusMeaning(db, d);
  }

  lemma ApprovalInInterleavings(h: LockHash, events: seq<Event>, d: Id, more: seq<Event>, x: Id)
    requires Enabled(h, Exec(h, events), Other(Accept(d)))
    requires d in Exec(h, events).db.docs && Exec(h, events).db.docs[d].status == PendingReview
    requires forall i :: 0 <= i < |more| ==> DecidesNot(more[i], d)
    requires Under(Exec(h, events).db, x, d)
    ensures Cleared(Exec(h, events + [Other(Accept(d))]).db, d)
    ensures var now := Exec(h, events + [Other(Accept(d))] + more).db;
            Under(now, x, d) && now.sources[x].released
  {
    var db := Exec(h, events).db;
    InvOfExec(h, events);
    AfterOther(h, events, Accept(d));
    ApprovalClears(db, d);
    HashedWhenPending(db, d, x);
    ApprovedSource(db, d, x);
    FlagsSurvive(h, events + [Other(Accept(d))], more, x);
  }

  lemma InvOfExec(h: LockHash, events: seq<Event>)
    ensures Inv(Exec(h, events).db)
  {
    ExecOk(h, events);
  }

  lemma AfterOther(h: LockHash, events: seq<Event>, a: Action)
    requires Enabled(h, Exec(h, events), Other(a))
    ensures Exec(h, events + [Other(a)]).db == Do(Exec(h, events).db, a)
  {
    assert (events + [Other(a)])[..|events|] == events;
  }

  // ----- reports -----

  /** The finalisation will write: there is a hash, and the source has none yet. */
  predicate Writes(db: Db, id: Id, fp: Fingerprint) {
    fp.sha != "" && id in db.sources && db.sources[id].fp.None?
  }

  /** A finalisation that writes reports exactly the waiting documents it touches that are
      not processing afterwards. */
  lemma HashReports(db: Db, id: Id, fp: Fingerprint, extra: set<Id>, d: Id)
    requires DocsOk(db) && LshOk(db) && FpsOk(db) && WellFormed(fp)
    ensures var a, after := Hash(id, fp, extra), Do(db, Hash(id, fp, extra));
            && (Waiting(after, d) <==> Waiting(db, d) && !Reports(db, a, d))
            && (Reports(db, a, d) <==>
                  && Writes(db, id, fp) && Waiting(db, d) && (Touches(db, id, fp, d) || d in extra)
                  && d in after.docs && after.docs[d].status != Processing)
  {
    if Writes(db, id, fp) && d in db.docs {
      var candidates := Candidates(db, id, fp);
      TouchedDocs(db, id, fp, d);
      FinalReports(db, id, fp, Confident(fp, candidates), {db.sources[id].doc} + DocsOf(candidates) + extra, d);
    }
  }

  lemma OrderTouches(db: Db, used: set<Id>, x: Txn, d: Id)
    requires Inv(db) && TxnOk(db, used, x) && x.stage == Writing && Touches(db, x.source, x.fp, d)
    ensures d in x.order
  {
    TouchedDocs(db, x.source, x.fp, d);
    if y: Id :| y in Candidates(db, x.source, x.fp) && Candidates(db, x.source, x.fp)[y].doc == d {
      assert y in Living(db, x.found) && x.found[y].doc == d;
      HitDoc(x.found, y);
    }
    assert d in AsSet(x.order);
  }

  lemma WrittenReports(db: Db, used: set<Id>, x: Txn, d: Id)
    requires Inv(db) && TxnOk(db, used, x) && x.stage == Writing && d in db.docs
    ensures var after := Written(db, x);
            && d in after.docs
            && (after.docs[d].notified <==> db.docs[d].notified || (d in x.order && after.docs[d].status != Processing))
  {
    FinalReports(db, x.source, x.fp, x.hits, AsSet(x.order), d);
  }

  /** In every interleaving a commit reports exactly the waiting documents it locked that
      are not processing afterwards; it has locked all that it touches. */
  lemma CommitReports(h: LockHash, events: seq<Event>, t: TxnId, d: Id)
    requires Enabled(h, Exec(h, events), Commit(t))
    ensures var s := Exec(h, events);
            var after := Step(h, s, Commit(t)).db;
            && (StepReports(h, s, Commit(t), d) <==>
                  Waiting(s.db, d) && d in s.txns[t].order && d in after.docs && after.docs[d].status != Processing)
            && s.txns[t].source in s.db.sources
            && (Touches(s.db, s.txns[t].source, s.txns[t].fp, d) ==> d in s.txns[t].order)
  {
    var s := Exec(h, events);
    ExecOk(h, events);
    var x := s.txns[t];
    if d in s.db.docs {
      WrittenReports(s.db, s.used, x, d);
    }
    if Touches(s.db, x.source, x.fp, d) {
      OrderTouches(s.db, s.used, x, d);
    }
  }

  // ----- who waits -----

  /** After every run without an approval of d, a document that is not processing any more
      has been reported. */
  lemma {:induction false} OnlyProcessingWaits(acts: seq<Action>, d: Id)
    requires Accept(d) !in acts
    ensures WaitsProcessing(Run(acts), d)
  {
    if acts != [] {
      var front, a := acts[..|acts| - 1], acts[|acts| - 1];
      OnlyProcessingWaits(front, d);
      WaitStep(Run(front), a, d);
    }
  }

  lemma {:induction false} SerialLacks(h: LockHash, events: seq<Event>, d: Id)
    requires Other(Accept(d)) !in events
    ensures Accept(d) !in Serial(h, events)
  {
    if events != [] {
      SerialLacks(h, events[..|events| - 1], d);
      assert events[|events| - 1] in events;
    }
  }

  lemma WaitsInInterleavings(h: LockHash, events: seq<Event>, d: Id)
    requires Other(Accept(d)) !in events
    ensures WaitsProcessing(Exec(h, events).db, d)
  {
    ExecIsSerial(h, events);
    SerialLacks(h, events, d);
    OnlyProcessingWaits(Serial(h, events), d);
  }
}
