/** Finalisation as concurrent transactions that take locks and run one statement at a
    time against the committed tables. Writes stay private until the commit. */
module Protocol {
  import opened Fingerprints
  import opened Invariants
  import opened LockKeys
  import opened Options
  import opened Runs
  import opened Searches
  import opened Sequences
  import opened Stability
  import opened Tables

  /** The advisory lock number of a key. */
  type LockHash = string -> int

  datatype Stage =
    | TakingKeys | SearchingExact | SearchingText | SearchingNear
    | TakingDocs | Filtering | Writing

  /** One transaction in flight: what it holds and what its statements returned. */
  datatype Txn = Txn(
    source: Id, fp: Fingerprint, stage: Stage,
    keys: seq<string>, keysHeld: nat,
    doc: Id, found: Hits, order: seq<Id>, docsHeld: nat, hits: Hits)

  type TxnId = nat

  /** The committed tables, the transactions in flight, and every id handed out. */
  datatype Sys = Sys(db: Db, txns: map<TxnId, Txn>, used: set<Id>)

  datatype Event =
    | Begin(t: TxnId, source: Id, fp: Fingerprint)
    | TakeKey(t: TxnId)
    | FindDoc(t: TxnId)
    | SearchExact(t: TxnId)
    | SearchText(t: TxnId)
    | SearchNear(t: TxnId)
    | TakeDoc(t: TxnId)
    | Recheck(t: TxnId)
    | Filter(t: TxnId)
    | Commit(t: TxnId)
    | Abort(t: TxnId)
    | Other(a: Action)

  function HeldKeys(x: Txn): seq<string> {
    if x.keysHeld <= |x.keys| then x.keys[..x.keysHeld] else x.keys
  }

  function HeldDocs(x: Txn): seq<Id> {
    if x.docsHeld <= |x.order| then x.order[..x.docsHeld] else x.order
  }

  /** No other transaction holds the advisory lock of this key. */
  ghost predicate KeyFree(h: LockHash, s: Sys, t: TxnId, key: string) {
    forall u: TxnId, k: string {:trigger k in HeldKeys(s.txns[u])} ::
      u in s.txns && u != t && k in HeldKeys(s.txns[u]) ==> h(k) != h(key)
  }

  /** No other transaction holds this document's row. */
  ghost predicate DocFree(s: Sys, t: TxnId, d: Id) {
    forall u: TxnId :: u in s.txns && u != t ==> d !in HeldDocs(s.txns[u])
  }

  /** The source rows it has locked: its own from the recheck on, and those of its living
      candidates from the filter on. */
  function HeldRows(db: Db, x: Txn): set<Id> {
    (if Checked(x.stage) then {x.source} else {}) + (if x.stage == Writing then Living(db, x.found).Keys else {})
  }

  /** No other transaction holds this source row. */
  ghost predicate RowFree(s: Sys, t: TxnId, y: Id) {
    forall u: TxnId :: u in s.txns && u != t ==> y !in HeldRows(s.db, s.txns[u])
  }

  ghost predicate RowUnlocked(s: Sys, y: Id) {
    forall u: TxnId :: u in s.txns ==> y !in HeldRows(s.db, s.txns[u])
  }

  ghost predicate Unlocked(s: Sys, d: Id) {
    forall u: TxnId :: u in s.txns ==> d !in HeldDocs(s.txns[u])
  }

  predicate At(s: Sys, t: TxnId, stage: Stage) {
    t in s.txns && s.txns[t].stage == stage
  }

  /** The other transactions wait for the rows they lock and then take one step: most lock
      their document, replacing title similarities locks source rows. New rows have fresh
      ids. */
  ghost predicate Allowed(s: Sys, a: Action) {
    match a
    case Upload(d, _, _, files, _, _) => d !in s.used && files.Keys !! s.used
    case Append(d, files, _, _) => Unlocked(s, d) && files.Keys !! s.used
    case Hash(_, _, _) => false
    case Accept(d) => Unlocked(s, d)
    case Decline(d) => Unlocked(s, d)
    case Remove(d) => Unlocked(s, d)
    case Retitle(id, hits) =>
      var kept := FirstSimilar(hits);
      RowUnlocked(s, id)
      && forall i :: 0 <= i < |kept| && kept[i].matched != NIL ==> RowUnlocked(s, kept[i].matched)
  }

  function NewIds(a: Action): set<Id> {
    match a
    case Upload(d, _, _, files, _, _) => {d} + files.Keys
    case Append(_, files, _, _) => files.Keys
    case _ => {}
  }

  ghost predicate Enabled(h: LockHash, s: Sys, e: Event) {
    match e
    case Begin(t, _, fp) => t !in s.txns && fp.sha != "" && WellFormed(fp)
    case TakeKey(t) =>
      && At(s, t, TakingKeys) && s.txns[t].keysHeld < |s.txns[t].keys|
      && KeyFree(h, s, t, s.txns[t].keys[s.txns[t].keysHeld])
    case FindDoc(t) => At(s, t, TakingKeys) && s.txns[t].keysHeld == |s.txns[t].keys|
    case SearchExact(t) => At(s, t, SearchingExact)
    case SearchText(t) => At(s, t, SearchingText)
    case SearchNear(t) => At(s, t, SearchingNear)
    case TakeDoc(t) =>
      && At(s, t, TakingDocs) && s.txns[t].docsHeld < |s.txns[t].order|
      && (var d := s.txns[t].order[s.txns[t].docsHeld]; d in s.db.docs ==> DocFree(s, t, d))
    case Recheck(t) =>
      && At(s, t, TakingDocs) && s.txns[t].docsHeld == |s.txns[t].order|
      && (s.txns[t].source in s.db.sources ==> RowFree(s, t, s.txns[t].source))
    case Filter(t) => At(s, t, Filtering) && forall y :: y in Living(s.db, s.txns[t].found) ==> RowFree(s, t, y)
    case Commit(t) => At(s, t, Writing)
    case Abort(t) => t in s.txns
    case Other(a) => Allowed(s, a)
  }

  // ----- steps -----

  function End(s: Sys, t: TxnId): Sys {
    s.(txns := s.txns - {t})
  }

  function Put(s: Sys, t: TxnId, x: Txn): Sys {
    s.(txns := s.txns[t := x])
  }

  /** The third search completes the candidates; now the documents to lock are known. */
  ghost function AfterNear(db: Db, x: Txn): Txn {
    var found := Merge(x.found, ThirdHits(db, x.source, x.fp));
    x.(stage := TakingDocs, found := found, order := SortedIds({x.doc} + DocsOf(found)))
  }

  /** The tables after the transaction's writes become visible. */
  ghost function Written(db: Db, x: Txn): Db {
    if x.source in db.sources && db.sources[x.source].doc in db.docs && x.source !in x.hits
    then Finalized(db, x.source, x.fp, x.hits, AsSet(x.order))
    else db
  }

  ghost function Step(h: LockHash, s: Sys, e: Event): Sys
    requires Enabled(h, s, e)
  {
    match e
    case Begin(t, source, fp) => Put(s, t, Txn(source, fp, TakingKeys, Keys(fp), 0, 0, map[], [], 0, map[]))
    case TakeKey(t) => var x := s.txns[t]; Put(s, t, x.(keysHeld := x.keysHeld + 1))
    case FindDoc(t) =>
      var x := s.txns[t];
      if x.source in s.db.sources
      then Put(s, t, x.(stage := SearchingExact, doc := s.db.sources[x.source].doc))
      else End(s, t)
    case SearchExact(t) =>
      var x := s.txns[t];
      Put(s, t, x.(stage := SearchingText, found := ExactHits(s.db, x.source, x.fp.sha)))
    case SearchText(t) =>
      var x := s.txns[t];
      Put(s, t, x.(stage := SearchingNear, found := Merge(x.found, SecondHits(s.db, x.source, x.fp))))
    case SearchNear(t) => Put(s, t, AfterNear(s.db, s.txns[t]))
    case TakeDoc(t) => var x := s.txns[t]; Put(s, t, x.(docsHeld := x.docsHeld + 1))
    case Recheck(t) =>
      var x := s.txns[t];
      if x.source in s.db.sources && s.db.sources[x.source].fp.None?
      then Put(s, t, x.(stage := Filtering))
      else End(s, t)
    case Filter(t) =>
      var x := s.txns[t];
      Put(s, t, x.(stage := Writing, hits := Confident(x.fp, Living(s.db, x.found))))
    case Commit(t) => End(s.(db := Written(s.db, s.txns[t])), t)
    case Abort(t) => End(s, t)
    case Other(a) => s.(db := Do(s.db, a), used := s.used + NewIds(a))
  }

  ghost function Exec(h: LockHash, events: seq<Event>): Sys {
    if events == [] then Sys(EMPTY, map[], {})
    else
      var s := Exec(h, events[..|events| - 1]);
      if Enabled(h, s, events[|events| - 1]) then Step(h, s, events[|events| - 1]) else s
  }

  // ----- what every interleaving keeps -----

  predicate Searched(stage: Stage) {
    stage == TakingDocs || stage == Filtering || stage == Writing
  }

  predicate Checked(stage: Stage) {
    stage == Filtering || stage == Writing
  }

  /** The transaction's keys, and that it holds them all once it reads. */
  ghost predicate KeysPart(x: Txn) {
    && WellFormed(x.fp) && x.fp.sha != "" && x.keys == Keys(x.fp)
    && x.keysHeld <= |x.keys| && (x.stage != TakingKeys ==> x.keysHeld == |x.keys|)
  }

  /** What it knows about its own source and the ids it has seen. */
  ghost predicate SourcePart(db: Db, used: set<Id>, x: Txn) {
    && x.found.Keys <= used && DocsOf(x.found) <= used && AsSet(x.order) <= used
    && (x.stage != TakingKeys ==>
          && x.source in used && x.doc in used
          && (x.source in db.sources ==> db.sources[x.source].doc == x.doc))
  }

  /** What its searches found is, among the living, what they would find now. */
  ghost predicate FoundPart(db: Db, x: Txn) {
    && (x.stage == SearchingText ==> Living(db, x.found) == ExactHits(db, x.source, x.fp.sha))
    && (x.stage == SearchingNear ==>
          Living(db, x.found) == Merge(ExactHits(db, x.source, x.fp.sha), SecondHits(db, x.source, x.fp)))
    && (Searched(x.stage) ==> Living(db, x.found) == Candidates(db, x.source, x.fp))
  }

  /** The documents it locks, in ascending order. */
  ghost predicate OrderPart(x: Txn) {
    && x.docsHeld <= |x.order| && Ascending(x.order)
    && (if Searched(x.stage) then AsSet(x.order) == {x.doc} + DocsOf(x.found) else x.order == [])
    && (Checked(x.stage) ==> x.docsHeld == |x.order|)
  }

  /** After the recheck its source is still there and still unhashed. */
  ghost predicate ReadyPart(db: Db, x: Txn) {
    && (Checked(x.stage) ==> x.source in db.sources && db.sources[x.source].fp.None?)
    && (x.stage == Writing ==> x.hits == Linked(db, x.source, x.fp))
  }

  ghost predicate TxnOk(db: Db, used: set<Id>, x: Txn) {
    KeysPart(x) && SourcePart(db, used, x) && FoundPart(db, x) && OrderPart(x) && ReadyPart(db, x)
  }

  ghost predicate UsedOk(db: Db, used: set<Id>) {
    db.docs.Keys <= used && db.sources.Keys <= used
  }

  /** No advisory lock and no existing document row is held twice. */
  ghost predicate KeysExclusive(h: LockHash, s: Sys) {
    forall t: TxnId, k: string :: t in s.txns && k in HeldKeys(s.txns[t]) ==> KeyFree(h, s, t, k)
  }

  ghost predicate DocsExclusive(s: Sys) {
    forall t: TxnId, d: Id :: t in s.txns && d in HeldDocs(s.txns[t]) && d in s.db.docs ==> DocFree(s, t, d)
  }

  ghost predicate SysOk(h: LockHash, s: Sys) {
    && Inv(s.db) && UsedOk(s.db, s.used) && KeysExclusive(h, s) && DocsExclusive(s)
    && (forall t: TxnId :: t in s.txns ==> TxnOk(s.db, s.used, s.txns[t]))
  }

  // ----- a transaction while others move -----

  /** A change of the tables that a transaction can live with. */
  ghost predicate Harmless(db: Db, after: Db, used: set<Id>, x: Txn) {
    && IndexOk(db) && IndexOk(after) && (x.stage != TakingKeys ==> Later(db, after, x.fp))
    && (forall s :: s in after.sources && s !in db.sources ==> s !in used)
    && (forall s :: s in db.sources && s in after.sources ==> after.sources[s].doc == db.sources[s].doc)
    && (Checked(x.stage) ==>
          && (x.source in db.sources && db.sources[x.source].fp.None? ==>
                x.source in after.sources && after.sources[x.source].fp.None?)
          && (forall y :: y in Living(db, x.found) ==> y in after.sources))
  }

  lemma LivingLater(db: Db, after: Db, used: set<Id>, found: Hits)
    requires found.Keys <= used
    requires forall s :: s in after.sources && s !in db.sources ==> s !in used
    ensures Living(after, found) == Living(after, Living(db, found))
  {
  }

  lemma FoundStable(db: Db, after: Db, used: set<Id>, x: Txn)
    requires KeysPart(x) && SourcePart(db, used, x) && FoundPart(db, x) && Harmless(db, after, used, x)
    ensures FoundPart(after, x)
  {
    LivingLater(db, after, used, x.found);
    if x.stage == SearchingText {
      ExactStable(db, after, x.source, x.fp);
    } else if x.stage == SearchingNear {
      TwoStable(db, after, x.source, x.fp);
    } else if Searched(x.stage) {
      CandidatesStable(db, after, x.source, x.fp);
    }
  }

  lemma ReadyStable(db: Db, after: Db, used: set<Id>, x: Txn)
    requires KeysPart(x) && SourcePart(db, used, x) && FoundPart(db, x) && ReadyPart(db, x)
    requires Harmless(db, after, used, x) && FoundPart(after, x)
    ensures ReadyPart(after, x)
  {
    if x.stage == Writing {
      LivingLater(db, after, used, x.found);
      assert Living(after, x.found) == Living(db, x.found);
      SearchesFindLinks(db, x.source, x.fp);
      SearchesFindLinks(after, x.source, x.fp);
    }
  }

  lemma TxnStable(db: Db, after: Db, used: set<Id>, grown: set<Id>, x: Txn)
    requires TxnOk(db, used, x) && Harmless(db, after, used, x) && used <= grown
    ensures TxnOk(after, grown, x)
  {
    FoundStable(db, after, used, x);
    ReadyStable(db, after, used, x);
  }
}
