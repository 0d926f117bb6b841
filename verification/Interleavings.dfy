/** What every interleaving of the locking protocol keeps. */
module Interleavings {
  import opened Fingerprints
  import opened Invariants
  import opened LockKeys
  import opened Options
  import opened Preservation
  import opened Protocol
  import opened Runs
  import opened Searches
  import opened Sequences
  import opened Stability
  import opened Tables

  // ----- what commits of others leave alone -----

  /** Surviving rows keep their document, upload time and fingerprint; new rows have
      no fingerprint yet. */
  ghost predicate RowsKept(db: Db, after: Db, added: set<Id>) {
    && (forall s :: s in db.sources && s in after.sources ==>
                      && after.sources[s].doc == db.sources[s].doc
                      && after.sources[s].uploaded == db.sources[s].uploaded
                      && after.sources[s].fp == db.sources[s].fp)
    && (forall s :: s in after.sources && s !in db.sources ==> after.sources[s].fp.None? && s in added)
    && (forall d :: d in after.docs && d !in db.docs ==> d in added)
  }

  lemma UploadKeepsRows(db: Db, d: Id, erp: string, trusted: bool, files: map<Id, int>, max: int, notes: seq<string>)
    ensures RowsKept(db, Create(db, d, erp, trusted, files, max, notes).db, {d} + files.Keys)
  {
  }

  lemma AppendKeepsRows(db: Db, d: Id, files: map<Id, int>, max: int, note: string)
    ensures RowsKept(db, AddSources(db, d, files, max, note).db, files.Keys)
  {
  }

  lemma AcceptKeepsRows(db: Db, d: Id)
    ensures RowsKept(db, Do(db, Accept(d)), {})
  {
    ReleaseFrame(db.sources, d);
  }

  lemma DeclineKeepsRows(db: Db, d: Id)
    ensures RowsKept(db, Do(db, Decline(d)), {})
  {
  }

  lemma RemoveKeepsRows(db: Db, d: Id)
    ensures RowsKept(db, Do(db, Remove(d)), {})
  {
  }

  lemma RetitleKeepsRows(db: Db, x: Id, hits: seq<SimilarHit>)
    ensures RowsKept(db, Do(db, Retitle(x, hits)), {})
  {
  }

  /** Actions other than a finalisation never touch the fingerprint of a source that stays. */
  lemma OtherKeepsRows(db: Db, a: Action)
    requires !a.Hash?
    ensures RowsKept(db, Do(db, a), NewIds(a))
  {
    match a
    case Upload(d, erp, trusted, files, max, notes) => UploadKeepsRows(db, d, erp, trusted, files, max, notes);
    case Append(d, files, max, note) => AppendKeepsRows(db, d, files, max, note);
    case Accept(d) => AcceptKeepsRows(db, d);
    case Decline(d) => DeclineKeepsRows(db, d);
    case Remove(d) => RemoveKeepsRows(db, d);
    case Retitle(x, hits) => RetitleKeepsRows(db, x, hits);
  }

  lemma KeptIsLater(db: Db, after: Db, added: set<Id>, fp: Fingerprint)
    requires RowsKept(db, after, added)
    ensures Later(db, after, fp)
  {
  }

  /** Sources under a locked document stay. */
  lemma OtherKeepsSources(s: Sys, a: Action, y: Id)
    requires Allowed(s, a) && y in s.db.sources && !Unlocked(s, s.db.sources[y].doc)
    ensures y in Do(s.db, a).sources
  {
  }

  lemma HeldWhole(s: Sys, t: TxnId, d: Id)
    requires t in s.txns && s.txns[t].docsHeld == |s.txns[t].order| && d in s.txns[t].order
    ensures d in HeldDocs(s.txns[t]) && !Unlocked(s, d)
  {
  }

  /** A document of a living candidate is among the locked ones. */
  lemma CandidateDocLocked(s: Sys, t: TxnId, y: Id)
    requires t in s.txns && TxnOk(s.db, s.used, s.txns[t]) && Searched(s.txns[t].stage)
    requires y in Living(s.db, s.txns[t].found)
    ensures y in s.db.sources && s.db.sources[y].doc in s.txns[t].order
  {
    var x := s.txns[t];
    CandidateData(s.db, x.source, x.fp, y);
    assert x.found[y] == Living(s.db, x.found)[y] == Candidates(s.db, x.source, x.fp)[y];
    assert x.found[y].doc in DocsOf(x.found);
    assert x.found[y].doc in AsSet(x.order);
  }

  lemma OwnDocLocked(x: Txn)
    requires OrderPart(x) && Searched(x.stage)
    ensures x.doc in x.order
  {
  }

  lemma OtherHarmless(h: LockHash, s: Sys, a: Action, t: TxnId)
    requires SysOk(h, s) && Allowed(s, a) && t in s.txns && Inv(Do(s.db, a))
    ensures Harmless(s.db, Do(s.db, a), s.used, s.txns[t])
  {
    var x := s.txns[t];
    var after := Do(s.db, a);
    OtherKeepsRows(s.db, a);
    KeptIsLater(s.db, after, NewIds(a), x.fp);
    NewAreFresh(s, a);
    if Checked(x.stage) {
      OwnDocLocked(x);
      HeldWhole(s, t, x.doc);
      OtherKeepsSources(s, a, x.source);
      forall y | y in Living(s.db, x.found)
        ensures y in after.sources
      {
        CandidateDocLocked(s, t, y);
        HeldWhole(s, t, s.db.sources[y].doc);
        OtherKeepsSources(s, a, y);
      }
    }
  }

  /** Two transactions past their locks are about unrelated fingerprints. */
  lemma Unrelated(h: LockHash, s: Sys, t: TxnId, u: TxnId)
    requires KeysExclusive(h, s) && t in s.txns && u in s.txns && t != u
    requires KeysPart(s.txns[t]) && KeysPart(s.txns[u])
    requires s.txns[t].stage != TakingKeys && s.txns[u].stage != TakingKeys
    ensures !Related(s.txns[t].fp, s.txns[u].fp)
  {
    var x, y := s.txns[t], s.txns[u];
    if Related(x.fp, y.fp) {
      assert HeldKeys(x) == Keys(x.fp) && HeldKeys(y) == Keys(y.fp);
      var key := RelatedShareKey(x.fp, y.fp);
    }
  }

  /** Two transactions past the recheck are about different sources. */
  lemma DifferentSources(s: Sys, t: TxnId, u: TxnId)
    requires DocsOk(s.db) && DocsExclusive(s) && t in s.txns && u in s.txns && t != u
    requires TxnOk(s.db, s.used, s.txns[t]) && TxnOk(s.db, s.used, s.txns[u])
    requires Checked(s.txns[t].stage) && Checked(s.txns[u].stage)
    ensures s.txns[t].source != s.txns[u].source
  {
  }

  // ----- source rows -----

  /** The source rows a transaction locks at some time: its own and its living candidates. */
  function RowsWanted(db: Db, x: Txn): set<Id> {
    {x.source} + Living(db, x.found).Keys
  }

  /** Every source row a transaction wants lies under a document row it holds, once it
      holds all its documents. */
  lemma RowsUnderDocs(s: Sys, t: TxnId, y: Id)
    requires t in s.txns && TxnOk(s.db, s.used, s.txns[t]) && Searched(s.txns[t].stage)
    requires s.txns[t].docsHeld == |s.txns[t].order|
    requires y in RowsWanted(s.db, s.txns[t]) && y in s.db.sources
    ensures s.db.sources[y].doc in HeldDocs(s.txns[t])
  {
    OwnDocLocked(s.txns[t]);
    if y in Living(s.db, s.txns[t].found) {
      CandidateDocLocked(s, t, y);
    }
    HeldWhole(s, t, s.db.sources[y].doc);
  }

  /** So two transactions that hold all their documents never want the same row. */
  lemma RowsApart(s: Sys, t: TxnId, u: TxnId)
    requires DocsOk(s.db) && DocsExclusive(s) && t in s.txns && u in s.txns && t != u
    requires TxnOk(s.db, s.used, s.txns[t]) && TxnOk(s.db, s.used, s.txns[u])
    requires Searched(s.txns[t].stage) && s.txns[t].docsHeld == |s.txns[t].order|
    requires Searched(s.txns[u].stage) && s.txns[u].docsHeld == |s.txns[u].order|
    ensures RowsWanted(s.db, s.txns[t]) * RowsWanted(s.db, s.txns[u]) !! s.db.sources.Keys
  {
    forall y | y in RowsWanted(s.db, s.txns[t]) && y in RowsWanted(s.db, s.txns[u])
      ensures y !in s.db.sources
    {
      if y in s.db.sources {
        RowsUnderDocs(s, t, y);
        assert DocFree(s, t, s.db.sources[y].doc);
        RowsUnderDocs(s, u, y);
      }
    }
  }

  lemma HeldRowsWanted(db: Db, used: set<Id>, x: Txn)
    requires TxnOk(db, used, x)
    ensures HeldRows(db, x) <= RowsWanted(db, x) * db.sources.Keys
    ensures HeldRows(db, x) != {} ==> Searched(x.stage) && x.docsHeld == |x.order|
  {
  }

  /** A row wanted by a transaction with all its documents is held by nobody else. */
  lemma RowsFree(h: LockHash, s: Sys, t: TxnId, y: Id)
    requires SysOk(h, s) && t in s.txns && Searched(s.txns[t].stage)
    requires s.txns[t].docsHeld == |s.txns[t].order|
    requires y in RowsWanted(s.db, s.txns[t]) && y in s.db.sources
    ensures RowFree(s, t, y)
  {
    forall u: TxnId | u in s.txns && u != t
      ensures y !in HeldRows(s.db, s.txns[u])
    {
      HeldRowsWanted(s.db, s.used, s.txns[u]);
      if y in HeldRows(s.db, s.txns[u]) {
        RowsApart(s, t, u);
      }
    }
  }

  /** What a commit is about to write. */
  lemma CommitReady(db: Db, used: set<Id>, x: Txn)
    requires Inv(db) && TxnOk(db, used, x) && x.stage == Writing
    ensures Ready(db, x.source, x.fp, AsSet(x.order))
    ensures x.hits == Linked(db, x.source, x.fp) && x.source !in x.hits
    ensures {x.doc} + DocsOf(Candidates(db, x.source, x.fp)) <= AsSet(x.order)
    ensures x.doc == db.sources[x.source].doc
  {
    SearchesFindLinks(db, x.source, x.fp);
    var candidates := Candidates(db, x.source, x.fp);
    forall y | y in candidates
      ensures candidates[y].doc in AsSet(x.order)
    {
      assert y in Living(db, x.found) && candidates[y] == x.found[y];
      assert x.found[y].doc in DocsOf(x.found);
    }
    forall y | y in x.hits
      ensures x.hits[y].doc in DocsOf(candidates)
    {
      assert y in Confident(x.fp, candidates) && x.hits[y] == candidates[y];
    }
  }

  /** The commit is the atomic transaction. */
  lemma CommitIsAtomic(db: Db, used: set<Id>, x: Txn)
    requires Inv(db) && TxnOk(db, used, x) && x.stage == Writing
    ensures Ready(db, x.source, x.fp, AsSet(x.order))
    ensures Written(db, x) == Final(db, x.source, x.fp, AsSet(x.order))
    ensures Written(db, x) == Finalize(db, x.source, x.fp, AsSet(x.order))
  {
    CommitReady(db, used, x);
    FinalizeIsFinal(db, x.source, x.fp, AsSet(x.order));
    assert {x.doc} + DocsOf(Candidates(db, x.source, x.fp)) + AsSet(x.order) == AsSet(x.order);
  }

  lemma CommitHarmless(h: LockHash, s: Sys, t: TxnId, u: TxnId)
    requires SysOk(h, s) && At(s, t, Writing) && u in s.txns && u != t
    requires Inv(Written(s.db, s.txns[t]))
    ensures Harmless(s.db, Written(s.db, s.txns[t]), s.used, s.txns[u])
  {
    var x, y := s.txns[t], s.txns[u];
    var after := Written(s.db, x);
    CommitReady(s.db, s.used, x);
    FinalFrame(s.db, x.source, x.fp, x.hits, AsSet(x.order));
    if y.stage != TakingKeys {
      Unrelated(h, s, u, t);
      CommitLater(s.db, after, x.source, x.fp, y.fp);
    }
    if Checked(y.stage) {
      DifferentSources(s, t, u);
    }
  }

  // ----- steps keep everything -----

  lemma EndOk(h: LockHash, s: Sys, t: TxnId)
    requires SysOk(h, s)
    ensures SysOk(h, End(s, t))
  {
    var s' := End(s, t);
    forall u, k | u in s'.txns && k in HeldKeys(s'.txns[u])
      ensures KeyFree(h, s', u, k)
    {
      assert KeyFree(h, s, u, k);
    }
    forall u, d | u in s'.txns && d in HeldDocs(s'.txns[u]) && d in s'.db.docs
      ensures DocFree(s', u, d)
    {
      assert DocFree(s, u, d);
    }
  }

  /** Replacing one transaction, when its new holdings clash with nobody's. */
  lemma PutOk(h: LockHash, s: Sys, t: TxnId, x: Txn)
    requires SysOk(h, s) && TxnOk(s.db, s.used, x)
    requires forall k :: k in HeldKeys(x) ==> KeyFree(h, s, t, k)
    requires forall d :: d in HeldDocs(x) && d in s.db.docs ==> DocFree(s, t, d)
    ensures SysOk(h, Put(s, t, x))
  {
    var s' := Put(s, t, x);
    forall u, k | u in s'.txns && k in HeldKeys(s'.txns[u])
      ensures KeyFree(h, s', u, k)
    {
      assert KeyFree(h, s, u, k);
    }
    forall u, d | u in s'.txns && d in HeldDocs(s'.txns[u]) && d in s'.db.docs
      ensures DocFree(s', u, d)
    {
      assert DocFree(s, u, d);
    }
  }

  /** Replacing one transaction that keeps its locks. */
  lemma MoveOk(h: LockHash, s: Sys, t: TxnId, x: Txn)
    requires SysOk(h, s) && TxnOk(s.db, s.used, x) && t in s.txns
    requires HeldKeys(x) == HeldKeys(s.txns[t]) && HeldDocs(x) == HeldDocs(s.txns[t])
    ensures SysOk(h, Put(s, t, x))
  {
    PutOk(h, s, t, x);
  }

  lemma BeginOk(h: LockHash, s: Sys, t: TxnId, source: Id, fp: Fingerprint)
    requires SysOk(h, s) && Enabled(h, s, Begin(t, source, fp))
    ensures SysOk(h, Step(h, s, Begin(t, source, fp)))
  {
    PutOk(h, s, t, Txn(source, fp, TakingKeys, Keys(fp), 0, 0, map[], [], 0, map[]));
  }

  lemma HoldsOneMore(x: Txn)
    requires KeysPart(x) && x.stage == TakingKeys && x.keysHeld < |x.keys|
    ensures KeysPart(x.(keysHeld := x.keysHeld + 1))
    ensures HeldKeys(x.(keysHeld := x.keysHeld + 1)) == HeldKeys(x) + [x.keys[x.keysHeld]]
  {
  }

  lemma TakeKeyOk(h: LockHash, s: Sys, t: TxnId)
    requires SysOk(h, s) && Enabled(h, s, TakeKey(t))
    ensures SysOk(h, Step(h, s, TakeKey(t)))
  {
    var x := s.txns[t];
    var x' := x.(keysHeld := x.keysHeld + 1);
    HoldsOneMore(x);
    forall k | k in HeldKeys(x')
      ensures KeyFree(h, s, t, k)
    {
      assert k in HeldKeys(x) || k == x.keys[x.keysHeld];
    }
    PutOk(h, s, t, x');
  }

  lemma TakeDocOk(h: LockHash, s: Sys, t: TxnId)
    requires SysOk(h, s) && Enabled(h, s, TakeDoc(t))
    ensures SysOk(h, Step(h, s, TakeDoc(t)))
  {
    var x := s.txns[t];
    var x' := x.(docsHeld := x.docsHeld + 1);
    assert HeldDocs(x') == HeldDocs(x) + [x.order[x.docsHeld]];
    PutOk(h, s, t, x');
  }

  lemma LivingAll(db: Db, hits: Hits)
    requires hits.Keys <= db.sources.Keys
    ensures Living(db, hits) == hits
  {
  }

  /** Hits of a search refer to existing sources and documents. */
  lemma HitsUsed(db: Db, used: set<Id>, id: Id, fp: Fingerprint)
    requires DocsOk(db) && UsedOk(db, used)
    ensures var e, t, n := ExactHits(db, id, fp.sha), SecondHits(db, id, fp), ThirdHits(db, id, fp);
            && e.Keys <= db.sources.Keys && t.Keys <= db.sources.Keys && n.Keys <= db.sources.Keys
            && DocsOf(e) <= used && DocsOf(t) <= used && DocsOf(n) <= used
  {
  }

  lemma DocsOfMerge(d: Hits, s: Hits)
    ensures DocsOf(Merge(d, s)) <= DocsOf(d) + DocsOf(s)
  {
  }

  lemma FindDocOk(h: LockHash, s: Sys, t: TxnId)
    requires SysOk(h, s) && Enabled(h, s, FindDoc(t))
    ensures SysOk(h, Step(h, s, FindDoc(t)))
  {
    var x := s.txns[t];
    if x.source in s.db.sources {
      MoveOk(h, s, t, x.(stage := SearchingExact, doc := s.db.sources[x.source].doc));
    } else {
      EndOk(h, s, t);
    }
  }

  lemma SearchExactTxn(db: Db, used: set<Id>, x: Txn)
    requires DocsOk(db) && UsedOk(db, used) && TxnOk(db, used, x) && x.stage == SearchingExact
    ensures TxnOk(db, used, x.(stage := SearchingText, found := ExactHits(db, x.source, x.fp.sha)))
  {
  }

  lemma SearchExactOk(h: LockHash, s: Sys, t: TxnId)
    requires SysOk(h, s) && Enabled(h, s, SearchExact(t))
    ensures SysOk(h, Step(h, s, SearchExact(t)))
  {
    var x := s.txns[t];
    SearchExactTxn(s.db, s.used, x);
    MoveOk(h, s, t, x.(stage := SearchingText, found := ExactHits(s.db, x.source, x.fp.sha)));
  }

  lemma SearchTextTxn(db: Db, used: set<Id>, x: Txn)
    requires DocsOk(db) && UsedOk(db, used) && TxnOk(db, used, x) && x.stage == SearchingText
    ensures TxnOk(db, used, x.(stage := SearchingNear, found := Merge(x.found, SecondHits(db, x.source, x.fp))))
  {
    var second := SecondHits(db, x.source, x.fp);
    HitsUsed(db, used, x.source, x.fp);
    LivingAll(db, second);
    LivingMerge(db, x.found, second);
    DocsOfMerge(x.found, second);
  }

  lemma SearchTextOk(h: LockHash, s: Sys, t: TxnId)
    requires SysOk(h, s) && Enabled(h, s, SearchText(t))
    ensures SysOk(h, Step(h, s, SearchText(t)))
  {
    var x := s.txns[t];
    SearchTextTxn(s.db, s.used, x);
    MoveOk(h, s, t, x.(stage := SearchingNear, found := Merge(x.found, SecondHits(s.db, x.source, x.fp))));
  }

  /** The third search completes the candidates; the transaction then knows which
      documents to lock. */
  lemma SearchNearTxn(db: Db, used: set<Id>, x: Txn, found: Hits, order: seq<Id>)
    requires DocsOk(db) && UsedOk(db, used) && TxnOk(db, used, x) && x.stage == SearchingNear
    requires found == Merge(x.found, ThirdHits(db, x.source, x.fp))
    requires Ascending(order) && AsSet(order) == {x.doc} + DocsOf(found)
    ensures TxnOk(db, used, x.(stage := TakingDocs, found := found, order := order))
  {
    var third := ThirdHits(db, x.source, x.fp);
    HitsUsed(db, used, x.source, x.fp);
    LivingAll(db, third);
    LivingMerge(db, x.found, third);
    DocsOfMerge(x.found, third);
  }

  lemma SearchNearOk(h: LockHash, s: Sys, t: TxnId)
    requires SysOk(h, s) && Enabled(h, s, SearchNear(t))
    ensures SysOk(h, Step(h, s, SearchNear(t)))
  {
    var x := s.txns[t];
    var found := Merge(x.found, ThirdHits(s.db, x.source, x.fp));
    var order := SortedIds({x.doc} + DocsOf(found));
    SearchNearTxn(s.db, s.used, x, found, order);
    MoveOk(h, s, t, AfterNear(s.db, x));
  }

  lemma RecheckOk(h: LockHash, s: Sys, t: TxnId)
    requires SysOk(h, s) && Enabled(h, s, Recheck(t))
    ensures SysOk(h, Step(h, s, Recheck(t)))
  {
    var x := s.txns[t];
    if x.source in s.db.sources && s.db.sources[x.source].fp.None? {
      MoveOk(h, s, t, x.(stage := Filtering));
    } else {
      EndOk(h, s, t);
    }
  }

  lemma FilterOk(h: LockHash, s: Sys, t: TxnId)
    requires SysOk(h, s) && Enabled(h, s, Filter(t))
    ensures SysOk(h, Step(h, s, Filter(t)))
  {
    var x := s.txns[t];
    SearchesFindLinks(s.db, x.source, x.fp);
    MoveOk(h, s, t, x.(stage := Writing, hits := Confident(x.fp, Living(s.db, x.found))));
  }

  /** The others after the tables change. */
  lemma OthersOk(h: LockHash, s: Sys, after: Db, grown: set<Id>)
    requires SysOk(h, s) && Inv(after) && UsedOk(after, grown) && s.used <= grown
    requires forall t :: t in s.txns ==> Harmless(s.db, after, s.used, s.txns[t])
    requires forall d :: d in after.docs && d !in s.db.docs ==> d !in s.used
    ensures SysOk(h, Sys(after, s.txns, grown))
  {
    forall t | t in s.txns
      ensures TxnOk(after, grown, s.txns[t])
    {
      TxnStable(s.db, after, s.used, grown, s.txns[t]);
    }
    var s' := Sys(after, s.txns, grown);
    forall t, d | t in s.txns && d in HeldDocs(s.txns[t]) && d in after.docs
      ensures DocFree(s', t, d)
    {
      HeldUsed(s.db, s.used, s.txns[t], d);
      assert DocFree(s, t, d);
    }
    forall t, k | t in s.txns && k in HeldKeys(s.txns[t])
      ensures KeyFree(h, s', t, k)
    {
      assert KeyFree(h, s, t, k);
    }
  }

  lemma HeldUsed(db: Db, used: set<Id>, x: Txn, d: Id)
    requires SourcePart(db, used, x) && d in HeldDocs(x)
    ensures d in used
  {
  }

  lemma CommitOk(h: LockHash, s: Sys, t: TxnId)
    requires SysOk(h, s) && Enabled(h, s, Commit(t))
    ensures SysOk(h, Step(h, s, Commit(t)))
  {
    var x := s.txns[t];
    var after := Written(s.db, x);
    CommitIsAtomic(s.db, s.used, x);
    FinalInv(s.db, x.source, x.fp, AsSet(x.order));
    CommitReady(s.db, s.used, x);
    FinalFrame(s.db, x.source, x.fp, x.hits, AsSet(x.order));
    var rest := End(s, t);
    EndOk(h, s, t);
    forall u | u in rest.txns
      ensures Harmless(s.db, after, s.used, rest.txns[u])
    {
      CommitHarmless(h, s, t, u);
    }
    OthersOk(h, rest, after, s.used);
  }

  /** The others after new rows came in and old ones changed or went. */
  lemma RowsKeptOk(h: LockHash, s: Sys, after: Db, added: set<Id>)
    requires SysOk(h, s) && Inv(after) && RowsKept(s.db, after, added) && added !! s.used
    requires forall t :: t in s.txns ==> Harmless(s.db, after, s.used, s.txns[t])
    ensures SysOk(h, Sys(after, s.txns, s.used + added))
  {
    OthersOk(h, s, after, s.used + added);
  }

  lemma OtherOk(h: LockHash, s: Sys, a: Action)
    requires SysOk(h, s) && Allowed(s, a)
    ensures SysOk(h, Sys(Do(s.db, a), s.txns, s.used + NewIds(a)))
  {
    var after := Do(s.db, a);
    DoKeeps(s.db, a);
    OtherKeepsRows(s.db, a);
    forall t | t in s.txns
      ensures Harmless(s.db, after, s.used, s.txns[t])
    {
      OtherHarmless(h, s, a, t);
    }
    NewAreFresh(s, a);
    RowsKeptOk(h, s, after, NewIds(a));
  }

  lemma NewAreFresh(s: Sys, a: Action)
    requires Allowed(s, a)
    ensures NewIds(a) !! s.used
  {
  }

  lemma StepOk(h: LockHash, s: Sys, e: Event)
    requires SysOk(h, s) && Enabled(h, s, e)
    ensures SysOk(h, Step(h, s, e))
  {
    match e
    case Begin(t, source, fp) => BeginOk(h, s, t, source, fp);
    case TakeKey(t) => TakeKeyOk(h, s, t);
    case FindDoc(t) => FindDocOk(h, s, t);
    case SearchExact(t) => SearchExactOk(h, s, t);
    case SearchText(t) => SearchTextOk(h, s, t);
    case SearchNear(t) => SearchNearOk(h, s, t);
    case TakeDoc(t) => TakeDocOk(h, s, t);
    case Recheck(t) => RecheckOk(h, s, t);
    case Filter(t) => FilterOk(h, s, t);
    case Commit(t) => CommitOk(h, s, t);
    case Abort(t) => EndOk(h, s, t);
    case Other(a) => OtherOk(h, s, a);
  }

  lemma {:induction false} ExecOk(h: LockHash, events: seq<Event>)
    ensures SysOk(h, Exec(h, events))
  {
    if events == [] {
      EmptyInv();
    } else {
      var s, e := Exec(h, events[..|events| - 1]), events[|events| - 1];
      ExecOk(h, events[..|events| - 1]);
      if Enabled(h, s, e) {
        StepOk(h, s, e);
      }
    }
  }
}
