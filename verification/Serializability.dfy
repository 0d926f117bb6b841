/** Every interleaving of the locking protocol has the effect of running its committed
    transactions one after the other, in the order in which they committed. */
module Serializability {
  import opened Fingerprints
  import opened Histories
  import opened Interleavings
  import opened Invariants
  import opened Protocol
  import opened Runs
  import opened Sequences
  import opened Tables
  import opened Words

  /** What one step commits. */
  ghost function Committed(h: LockHash, s: Sys, e: Event): seq<Action> {
    if !Enabled(h, s, e) then []
    else
      match e
      case Commit(t) => [Hash(s.txns[t].source, s.txns[t].fp, AsSet(s.txns[t].order))]
      case Other(a) => [a]
      case _ => []
  }

  /** Everything an execution commits, in commit order. */
  ghost function Serial(h: LockHash, events: seq<Event>): seq<Action> {
    if events == [] then []
    else
      var front := events[..|events| - 1];
      Serial(h, front) + Committed(h, Exec(h, front), events[|events| - 1])
  }

  /** Only commits and the short transactions change the tables. */
  lemma QuietStep(h: LockHash, s: Sys, e: Event)
    requires Enabled(h, s, e) && !e.Commit? && !e.Other?
    ensures Step(h, s, e).db == s.db
  {
  }

  lemma CommitStep(db: Db, used: set<Id>, x: Txn)
    requires Inv(db) && TxnOk(db, used, x) && x.stage == Writing
    ensures WellFormed(x.fp) && Written(db, x) == Do(db, Hash(x.source, x.fp, AsSet(x.order)))
  {
    CommitIsAtomic(db, used, x);
  }

  lemma StepIsAtomic(h: LockHash, s: Sys, e: Event)
    requires SysOk(h, s) && Enabled(h, s, e)
    ensures var acts := Committed(h, s, e);
            if acts == [] then Step(h, s, e).db == s.db
            else |acts| == 1 && Formed(acts[0]) && Step(h, s, e).db == Do(s.db, acts[0])
  {
    if e.Commit? {
      CommitStep(s.db, s.used, s.txns[e.t]);
    } else if !e.Other? {
      QuietStep(h, s, e);
    }
  }

  /** The committed tables are those of the serial run: locking makes the concurrent
      system equivalent to atomic transactions, whatever the lock numbers are. */
  lemma {:induction false} ExecIsSerial(h: LockHash, events: seq<Event>)
    ensures AllFormed(Serial(h, events))
    ensures Exec(h, events).db == Run(Serial(h, events))
  {
    if events != [] {
      var front, e := events[..|events| - 1], events[|events| - 1];
      var s := Exec(h, front);
      ExecIsSerial(h, front);
      ExecOk(h, front);
      var acts := Committed(h, s, e);
      if Enabled(h, s, e) {
        StepIsAtomic(h, s, e);
      }
      if acts == [] {
        assert Serial(h, events) == Serial(h, front);
      } else {
        assert acts == [acts[0]];
        RunAppend(Serial(h, front), acts[0]);
      }
    }
  }

  // ----- what this gives for every interleaving -----

  /** No interleaving loses or invents a duplicate: two living finalised sources are
      recorded as a pair exactly when their fingerprints match. */
  lemma NoInterleavingLosesDuplicates(h: LockHash, events: seq<Event>, a: Id, b: Id)
    ensures var db := Exec(h, events).db;
            && ((a, b) in db.pairs <==>
                  a != b && Hashed(db, a) && Hashed(db, b) && Link(FpOf(db, a), FpOf(db, b)).Some?)
            && ((a, b) in db.pairs <==> (b, a) in db.pairs)
  {
    ExecIsSerial(h, events);
    NoLostDuplicate(Serial(h, events), a, b);
    NoLostDuplicate(Serial(h, events), b, a);
  }

  /** No event decides to remove anything. */
  predicate RemovesNothing(events: seq<Event>) {
    forall i :: 0 <= i < |events| && events[i].Other? ==> Keeps(events[i].a)
  }

  lemma {:induction false} SerialRemovesNothing(h: LockHash, events: seq<Event>)
    requires RemovesNothing(events)
    ensures NothingRemoved(Serial(h, events))
  {
    if events != [] {
      SerialRemovesNothing(h, events[..|events| - 1]);
      assert events[|events| - 1].Other? ==> Keeps(events[|events| - 1].a);
    }
  }

  /** Two interleavings that end with the same finalised files agree on every role,
      score and pair, whatever the order of their steps and their lock numbers. */
  lemma InterleavingsConverge(h: LockHash, one: seq<Event>, g: LockHash, two: seq<Event>, a: Id)
    requires RemovesNothing(one) && RemovesNothing(two)
    requires SameFiles(Exec(h, one).db, Exec(g, two).db) && a in Exec(h, one).db.sources
    ensures var x, y := Exec(h, one).db, Exec(g, two).db;
            x.sources[a].role == y.sources[a].role && x.sources[a].score == y.sources[a].score && x.pairs == y.pairs
  {
    ExecIsSerial(h, one);
    ExecIsSerial(g, two);
    SerialRemovesNothing(h, one);
    SerialRemovesNothing(g, two);
    Confluence(Serial(h, one), Serial(g, two), a);
  }

  predicate EventLimited(e: Event, max: int) {
    e.Other? ==> Limited(e.a, max)
  }

  lemma {:induction false} SerialLimited(h: LockHash, events: seq<Event>, max: int)
    requires forall i :: 0 <= i < |events| ==> EventLimited(events[i], max)
    ensures forall i :: 0 <= i < |Serial(h, events)| ==> Limited(Serial(h, events)[i], max)
  {
    if events != [] {
      SerialLimited(h, events[..|events| - 1], max);
      assert EventLimited(events[|events| - 1], max);
    }
  }

  /** Under one fixed limit no interleaving gives a document too many sources. */
  lemma InterleavingsStayInBounds(h: LockHash, events: seq<Event>, max: int, d: Id)
    requires max >= 0 && forall i :: 0 <= i < |events| ==> EventLimited(events[i], max)
    ensures |SourcesOf(Exec(h, events).db, d)| <= max
  {
    ExecIsSerial(h, events);
    SerialLimited(h, events, max);
    NeverTooMany(Serial(h, events), max, d);
  }

  /** In every interleaving the status of every document follows from its sources, and a
      shareable document hides neither an unhashed nor a held source. */
  lemma StatusInEveryInterleaving(h: LockHash, events: seq<Event>, d: Id)
    requires d in Exec(h, events).db.docs
    ensures var db := Exec(h, events).db;
            if db.docs[d].status == Rejected then SourcesOf(db, d) == {}
            else db.docs[d].status == Derived(db.sources, d)
    ensures var db := Exec(h, events).db;
            Shareable(db.docs[d].status) ==>
              forall s :: s in SourcesOf(db, d) ==> Hashed(db, s) && !IsHeld(db.sources[s])
    ensures StatusSays(Exec(h, events).db, d)
  {
    ExecIsSerial(h, events);
    StatusIsDerived(Serial(h, events), d);
  }

  /** Two transactions never hold the same lock number, nor the row of the same document,
      nor the row of the same source. */
  lemma LocksAreExclusive(h: LockHash, events: seq<Event>, t: TxnId, u: TxnId)
    requires var s := Exec(h, events); t in s.txns && u in s.txns && t != u
    ensures var s := Exec(h, events);
            && (forall k, l :: k in HeldKeys(s.txns[t]) && l in HeldKeys(s.txns[u]) ==> h(k) != h(l))
            && (forall d :: d in s.db.docs && d in HeldDocs(s.txns[t]) ==> d !in HeldDocs(s.txns[u]))
            && HeldRows(s.db, s.txns[t]) !! HeldRows(s.db, s.txns[u])
  {
    ExecOk(h, events);
    ExclusiveLocks(h, Exec(h, events), t, u);
    ExclusiveRows(h, Exec(h, events), t, u);
  }

  lemma ExclusiveLocks(h: LockHash, s: Sys, t: TxnId, u: TxnId)
    requires KeysExclusive(h, s) && DocsExclusive(s) && t in s.txns && u in s.txns && t != u
    ensures forall k, l :: k in HeldKeys(s.txns[t]) && l in HeldKeys(s.txns[u]) ==> h(k) != h(l)
    ensures forall d :: d in s.db.docs && d in HeldDocs(s.txns[t]) ==> d !in HeldDocs(s.txns[u])
  {
    forall k, l | k in HeldKeys(s.txns[t]) && l in HeldKeys(s.txns[u])
      ensures h(k) != h(l)
    {
      assert KeyFree(h, s, t, k);
    }
    forall d | d in s.db.docs && d in HeldDocs(s.txns[t])
      ensures d !in HeldDocs(s.txns[u])
    {
      assert DocFree(s, t, d);
    }
  }

  lemma ExclusiveRows(h: LockHash, s: Sys, t: TxnId, u: TxnId)
    requires SysOk(h, s) && t in s.txns && u in s.txns && t != u
    ensures HeldRows(s.db, s.txns[t]) !! HeldRows(s.db, s.txns[u])
  {
    HeldRowsWanted(s.db, s.used, s.txns[t]);
    HeldRowsWanted(s.db, s.used, s.txns[u]);
    if HeldRows(s.db, s.txns[t]) != {} && HeldRows(s.db, s.txns[u]) != {} {
      RowsApart(s, t, u);
    }
  }

  // ----- reports -----

  /** This step of the system is a finalisation that reports d. */
  ghost predicate StepReports(h: LockHash, s: Sys, e: Event, d: Id) {
    Enabled(h, s, e) && e.Commit? && d in s.db.docs && !s.db.docs[d].notified
    && d in Step(h, s, e).db.docs && Step(h, s, e).db.docs[d].notified
  }

  /** This step of the system makes d wait for a report. */
  ghost predicate StepArms(h: LockHash, s: Sys, e: Event, d: Id) {
    Enabled(h, s, e) && e.Other? && Arms(s.db, e.a, d)
  }

  /** How many of the further steps report d. */
  ghost function StepReportCount(h: LockHash, events: seq<Event>, more: seq<Event>, d: Id): nat {
    if more == [] then 0
    else
      var front := more[..|more| - 1];
      StepReportCount(h, events, front, d)
      + (if StepReports(h, Exec(h, events + front), more[|more| - 1], d) then 1 else 0)
  }

  ghost predicate StepsNeverArm(h: LockHash, events: seq<Event>, more: seq<Event>, d: Id) {
    forall i :: 0 <= i < |more| ==> !StepArms(h, Exec(h, events + more[..i]), more[i], d)
  }

  lemma CommitWaits(db: Db, used: set<Id>, x: Txn, d: Id)
    requires Inv(db) && TxnOk(db, used, x) && x.stage == Writing
    ensures var after := Written(db, x);
            && (d in db.docs ==> d in after.docs)
            && (Waiting(after, d) ==> Waiting(db, d))
            && (Waiting(db, d) && d in after.docs && after.docs[d].notified ==> after.docs[d].status != Processing)
            && (WaitsProcessing(db, d) ==> WaitsProcessing(after, d))
  {
    CommitStep(db, used, x);
    WaitStep(db, Hash(x.source, x.fp, AsSet(x.order)), d);
    CommitKeepsDocs(db, used, x);
  }

  lemma CommitKeepsDocs(db: Db, used: set<Id>, x: Txn)
    requires Inv(db) && TxnOk(db, used, x) && x.stage == Writing
    ensures Written(db, x).docs.Keys == db.docs.Keys
  {
  }

  lemma StepWaits(h: LockHash, s: Sys, e: Event, d: Id)
    requires SysOk(h, s) && Enabled(h, s, e)
    ensures StepReports(h, s, e, d) ==> Waiting(s.db, d) && !Waiting(Step(h, s, e).db, d)
    ensures Waiting(Step(h, s, e).db, d) ==> Waiting(s.db, d) || StepArms(h, s, e, d)
    ensures StepArms(h, s, e, d) ==> Waiting(Step(h, s, e).db, d)
    ensures StepReports(h, s, e, d) ==> Step(h, s, e).db.docs[d].status != Processing
    ensures Waiting(s.db, d) && !Waiting(Step(h, s, e).db, d) ==> StepReports(h, s, e, d) || e == Other(Remove(d))
    ensures WaitsProcessing(s.db, d) && e != Other(Accept(d)) ==> WaitsProcessing(Step(h, s, e).db, d)
  {
    match e
    case Commit(t) => CommitStepWaits(h, s, t, d);
    case Other(a) => OtherStepWaits(h, s, a, d);
    case _ => QuietStep(h, s, e);
  }

  lemma CommitStepWaits(h: LockHash, s: Sys, t: TxnId, d: Id)
    requires SysOk(h, s) && Enabled(h, s, Commit(t))
    ensures var e, after := Commit(t), Step(h, s, Commit(t)).db;
            && (StepReports(h, s, e, d) ==> Waiting(s.db, d) && !Waiting(after, d) && after.docs[d].status != Processing)
            && (Waiting(after, d) ==> Waiting(s.db, d))
            && (Waiting(s.db, d) && !Waiting(after, d) ==> StepReports(h, s, e, d))
            && (WaitsProcessing(s.db, d) ==> WaitsProcessing(after, d))
  {
    CommitWaits(s.db, s.used, s.txns[t], d);
  }

  lemma OtherStepWaits(h: LockHash, s: Sys, a: Action, d: Id)
    requires Enabled(h, s, Other(a))
    ensures var e, after := Other(a), Step(h, s, Other(a)).db;
            && (Waiting(after, d) ==> Waiting(s.db, d) || StepArms(h, s, e, d))
            && (StepArms(h, s, e, d) ==> Waiting(after, d))
            && (Waiting(s.db, d) && !Waiting(after, d) ==> a == Remove(d))
            && (WaitsProcessing(s.db, d) && a != Accept(d) ==> WaitsProcessing(after, d))
  {
    WaitStep(s.db, a, d);
  }

  lemma StepNotArmedBefore(h: LockHash, events: seq<Event>, more: seq<Event>, d: Id)
    requires StepsNeverArm(h, events, more, d) && more != []
    ensures StepsNeverArm(h, events, more[..|more| - 1], d)
    ensures !StepArms(h, Exec(h, events + more[..|more| - 1]), more[|more| - 1], d)
  {
    var front := more[..|more| - 1];
    forall i | 0 <= i < |front|
      ensures !StepArms(h, Exec(h, events + front[..i]), front[i], d)
    {
      assert front[..i] == more[..i];
    }
  }

  /** In every interleaving, as long as d is not made to wait again, at most one finalisation
      reports d; exactly one, when d was waiting and is neither deleted nor waiting any
      more. Unless it is approved, d waits only while it is processing. */
  lemma {:induction false} OneReportInInterleavings(h: LockHash, events: seq<Event>, more: seq<Event>, d: Id)
    requires StepsNeverArm(h, events, more, d)
    ensures StepReportCount(h, events, more, d) + (if Waiting(Exec(h, events + more).db, d) then 1 else 0)
            <= (if Waiting(Exec(h, events).db, d) then 1 else 0)
    ensures Other(Remove(d)) !in more ==>
              StepReportCount(h, events, more, d) + (if Waiting(Exec(h, events + more).db, d) then 1 else 0)
              == (if Waiting(Exec(h, events).db, d) then 1 else 0)
    ensures WaitsProcessing(Exec(h, events).db, d) && Other(Accept(d)) !in more ==>
              WaitsProcessing(Exec(h, events + more).db, d)
    decreases |more|
  {
    if more == [] {
      assert events + more == events;
    } else {
      var front, e := more[..|more| - 1], more[|more| - 1];
      assert e in more && forall f :: f in front ==> f in more;
      StepNotArmedBefore(h, events, more, d);
      OneReportInInterleavings(h, events, front, d);
      SplitLast(events, more);
      ExecOk(h, events + front);
      if Enabled(h, Exec(h, events + front), e) {
        StepWaits(h, Exec(h, events + front), e, d);
      }
    }
  }

  predicate DecidesNot(e: Event, d: Id) {
    e.Other? ==> !Decides(e.a, d)
  }

  lemma StepKeepsHold(h: LockHash, s: Sys, e: Event, x: Id)
    requires SysOk(h, s) && Enabled(h, s, e) && Hashed(s.db, x) && DecidesNot(e, s.db.sources[x].doc)
    ensures SameHold(s.db, Step(h, s, e).db, x)
  {
    StepIsAtomic(h, s, e);
    if e.Commit? || e.Other? {
      HoldStep(s.db, Committed(h, s, e)[0], x);
    }
  }

  lemma {:induction false} FlagsSurvive(h: LockHash, events: seq<Event>, more: seq<Event>, x: Id)
    requires Hashed(Exec(h, events).db, x)
    requires forall i :: 0 <= i < |more| ==> DecidesNot(more[i], Exec(h, events).db.sources[x].doc)
    ensures SameHold(Exec(h, events).db, Exec(h, events + more).db, x)
    decreases |more|
  {
    if more == [] {
      assert events + more == events;
    } else {
      var front, e := more[..|more| - 1], more[|more| - 1];
      FlagsSurvive(h, events, front, x);
      SplitLast(events, more);
      ExecOk(h, events + front);
      if Enabled(h, Exec(h, events + front), e) {
        StepKeepsHold(h, Exec(h, events + front), e, x);
      }
    }
  }

  /** However the transactions interleave, a held duplicate stays one, and no other
      finalised source becomes one, until somebody approves, rejects or deletes its own
      document. */
  lemma HoldsSurviveInterleaving(h: LockHash, events: seq<Event>, more: seq<Event>, x: Id)
    requires Hashed(Exec(h, events).db, x)
    requires forall i :: 0 <= i < |more| ==> DecidesNot(more[i], Exec(h, events).db.sources[x].doc)
    ensures var before, after := Exec(h, events).db, Exec(h, events + more).db;
            && Hashed(after, x) && after.sources[x].doc == before.sources[x].doc
            && (IsHeld(after.sources[x]) <==> IsHeld(before.sources[x]))
  {
    FlagsSurvive(h, events, more, x);
    ExecOk(h, events);
    ExecOk(h, events + more);
    HeldIsUnreleased(Exec(h, events).db, x);
    HeldIsUnreleased(Exec(h, events + more).db, x);
  }

  // ----- holds and the index, in every interleaving -----

  lemma CommitHolds(db: Db, used: set<Id>, x: Txn)
    requires Inv(db) && TxnOk(db, used, x) && x.stage == Writing
    ensures HeldRightly(db, Written(db, x), x.source, x.fp)
  {
    CommitStep(db, used, x);
    HeldAtHash(db, x.source, x.fp, AsSet(x.order));
  }

  /** However the transactions interleave, from the commit of its finalisation until a
      decision on its document a source is held exactly when its owner is not trusted and
      an earlier match had been finalised before that commit. */
  lemma HeldExactlyInInterleavings(h: LockHash, events: seq<Event>, t: TxnId, more: seq<Event>)
    requires Enabled(h, Exec(h, events), Commit(t))
    requires var x := Exec(h, events).txns[t];
             forall i :: 0 <= i < |more| ==> DecidesNot(more[i], x.doc)
    ensures var s := Exec(h, events);
            HeldRightly(s.db, Exec(h, events + [Commit(t)] + more).db, s.txns[t].source, s.txns[t].fp)
  {
    var s := Exec(h, events);
    var x := s.txns[t];
    CommittedHold(h, events, t);
    HoldsSurviveInterleaving(h, events + [Commit(t)], more, x.source);
    HoldStays(s.db, Exec(h, events + [Commit(t)]).db, Exec(h, events + [Commit(t)] + more).db, x.source, x.fp);
  }

  lemma CommittedHold(h: LockHash, events: seq<Event>, t: TxnId)
    requires Enabled(h, Exec(h, events), Commit(t))
    ensures var s, after := Exec(h, events), Exec(h, events + [Commit(t)]);
            HeldRightly(s.db, after.db, s.txns[t].source, s.txns[t].fp) &&
            after.db.sources[s.txns[t].source].doc == s.txns[t].doc
  {
    var s := Exec(h, events);
    ExecOk(h, events);
    assert (events + [Commit(t)])[..|events|] == events;
    CommitHolds(s.db, s.used, s.txns[t]);
    OwnDocument(s.db, s.used, s.txns[t]);
  }

  lemma HoldStays(before: Db, now: Db, later: Db, id: Id, fp: Fingerprint)
    requires HeldRightly(before, now, id, fp)
    requires Hashed(later, id) && later.sources[id].doc == now.sources[id].doc
    requires IsHeld(later.sources[id]) <==> IsHeld(now.sources[id])
    ensures HeldRightly(before, later, id, fp)
  {
  }

  lemma OwnDocument(db: Db, used: set<Id>, x: Txn)
    requires TxnOk(db, used, x) && x.stage == Writing
    ensures x.source in db.sources && db.sources[x.source].doc == x.doc
  {
  }

  /** In every interleaving the band index answers exactly what a scan over all stored
      hashes would, for every distance bound below the number of bands. */
  lemma IndexIsExactInInterleavings(h: LockHash, events: seq<Event>, except: Id, hash: HashKind, value: uint64,
                                    maxDist: int, y: Id)
    requires maxDist < LSH_BANDS
    ensures var db := Exec(h, events).db;
            y in NearHits(db, except, hash, value, maxDist) <==>
              && Hashed(db, y) && y != except && value != 0 && StoredHash(FpOf(db, y), hash) != 0
              && Distance(value, StoredHash(FpOf(db, y), hash)) <= maxDist
  {
    ExecIsSerial(h, events);
    IndexIsExact(Serial(h, events), except, hash, value, maxDist, y);
  }

  // ----- rejected documents, in every interleaving -----

  /** This step takes d out of rejection. */
  ghost predicate StepRevives(h: LockHash, s: Sys, e: Event, d: Id) {
    Enabled(h, s, e) && e.Other? && Revives(s.db, e.a, d)
  }

  ghost function After(h: LockHash, s: Sys, e: Event): Sys {
    if Enabled(h, s, e) then Step(h, s, e) else s
  }

  lemma CommitKeepsRejected(db: Db, used: set<Id>, x: Txn, d: Id)
    requires Inv(db) && TxnOk(db, used, x) && x.stage == Writing && IsRejected(db, d)
    ensures IsRejected(Written(db, x), d)
  {
    CommitStep(db, used, x);
    RejectedStep(db, Hash(x.source, x.fp, AsSet(x.order)), d);
  }

  lemma CommitStepRejected(h: LockHash, s: Sys, t: TxnId, d: Id)
    requires SysOk(h, s) && Enabled(h, s, Commit(t)) && IsRejected(s.db, d)
    ensures IsRejected(Step(h, s, Commit(t)).db, d)
  {
    var x := s.txns[t];
    CommitKeepsRejected(s.db, s.used, x, d);
  }

  lemma OtherStepRejected(h: LockHash, s: Sys, a: Action, d: Id)
    requires Enabled(h, s, Other(a)) && IsRejected(s.db, d)
    ensures IsRejected(Step(h, s, Other(a)).db, d) <==> !Revives(s.db, a, d)
  {
    RejectedStep(s.db, a, d);
  }

  lemma QuietStepRejected(h: LockHash, s: Sys, e: Event, d: Id)
    requires IsRejected(s.db, d) && !e.Commit? && !e.Other?
    ensures IsRejected(After(h, s, e).db, d)
  {
    if Enabled(h, s, e) {
      QuietStep(h, s, e);
    }
  }

  lemma StepKeepsRejected(h: LockHash, s: Sys, e: Event, d: Id)
    requires SysOk(h, s) && IsRejected(s.db, d)
    ensures IsRejected(After(h, s, e).db, d) <==> !StepRevives(h, s, e, d)
  {
    if !e.Commit? && !e.Other? {
      QuietStepRejected(h, s, e, d);
    } else if Enabled(h, s, e) {
      match e
      case Commit(t) => CommitStepRejected(h, s, t, d);
      case Other(a) => OtherStepRejected(h, s, a, d);
    }
  }

  lemma ExecNext(h: LockHash, events: seq<Event>, more: seq<Event>, i: nat)
    requires i < |more|
    ensures Exec(h, events + more[..i + 1]) == After(h, Exec(h, events + more[..i]), more[i])
  {
    SplitLast(events, more[..i + 1]);
    assert more[..i + 1][..i] == more[..i];
  }

  lemma {:induction false} RejectedSoFar(h: LockHash, events: seq<Event>, more: seq<Event>, d: Id, i: nat)
    requires IsRejected(Exec(h, events).db, d) && i <= |more|
    requires forall k :: 0 <= k < i ==> !StepRevives(h, Exec(h, events + more[..k]), more[k], d)
    ensures IsRejected(Exec(h, events + more[..i]).db, d)
  {
    if i == 0 {
      assert events + more[..0] == events;
    } else {
      RejectedSoFar(h, events, more, d, i - 1);
      ExecNext(h, events, more, i - 1);
      ExecOk(h, events + more[..i - 1]);
      StepKeepsRejected(h, Exec(h, events + more[..i - 1]), more[i - 1], d);
    }
  }

  ghost predicate AlwaysRejected(h: LockHash, events: seq<Event>, more: seq<Event>, d: Id) {
    forall i :: 0 <= i <= |more| ==> IsRejected(Exec(h, events + more[..i]).db, d)
  }

  ghost predicate NeverRevived(h: LockHash, events: seq<Event>, more: seq<Event>, d: Id) {
    forall i :: 0 <= i < |more| ==> !StepRevives(h, Exec(h, events + more[..i]), more[i], d)
  }

  lemma RejectedNow(h: LockHash, events: seq<Event>, more: seq<Event>, d: Id, i: nat)
    requires AlwaysRejected(h, events, more, d) && i < |more|
    ensures !StepRevives(h, Exec(h, events + more[..i]), more[i], d)
  {
    ExecNext(h, events, more, i);
    ExecOk(h, events + more[..i]);
    assert IsRejected(Exec(h, events + more[..i]).db, d) && IsRejected(Exec(h, events + more[..i + 1]).db, d);
    StepKeepsRejected(h, Exec(h, events + more[..i]), more[i], d);
  }

  /** A rejected document stays rejected through an interleaving if and only if no step of
      it deletes the document or adds files to it that pass the checks. */
  lemma RejectedIffNeverRevived(h: LockHash, events: seq<Event>, more: seq<Event>, d: Id)
    requires IsRejected(Exec(h, events).db, d)
    ensures AlwaysRejected(h, events, more, d) <==> NeverRevived(h, events, more, d)
  {
    if AlwaysRejected(h, events, more, d) {
      forall i | 0 <= i < |more|
        ensures !StepRevives(h, Exec(h, events + more[..i]), more[i], d)
      {
        RejectedNow(h, events, more, d, i);
      }
    }
    if NeverRevived(h, events, more, d) {
      forall i | 0 <= i <= |more|
        ensures IsRejected(Exec(h, events + more[..i]).db, d)
      {
        RejectedSoFar(h, events, more, d, i);
      }
    }
  }
}
