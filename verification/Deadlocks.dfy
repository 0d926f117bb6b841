/** The locks are taken in one global order, keys before documents before source rows, so
    as long as the different keys in flight have different lock numbers some transaction
    can always move, and all of them can be run to their end. */
module Deadlocks {
  import opened Fingerprints
  import opened Interleavings
  import opened Invariants
  import opened LockKeys
  import opened Protocol
  import opened Sequences
  import opened Tables

  /** The lock keys of all transactions in flight. */
  ghost function KeysInFlight(s: Sys): set<string> {
    set t: TxnId, k: string | t in s.txns && k in s.txns[t].keys :: k
  }

  /** Different keys among these have different lock numbers. */
  ghost predicate Apart(h: LockHash, keys: set<string>) {
    forall k, l :: k in keys && l in keys && h(k) == h(l) ==> k == l
  }

  /** The one step a transaction takes next by itself. */
  function Next(t: TxnId, x: Txn): Event {
    match x.stage
    case TakingKeys => if x.keysHeld < |x.keys| then TakeKey(t) else FindDoc(t)
    case SearchingExact => SearchExact(t)
    case SearchingText => SearchText(t)
    case SearchingNear => SearchNear(t)
    case TakingDocs => if x.docsHeld < |x.order| then TakeDoc(t) else Recheck(t)
    case Filtering => Filter(t)
    case Writing => Commit(t)
  }

  ghost predicate Stuck(h: LockHash, s: Sys, t: TxnId) {
    t in s.txns && !Enabled(h, s, Next(t, s.txns[t]))
  }

  // ----- the lock order -----

  datatype Want = WantKey(key: string) | WantDoc(doc: Id)

  predicate Lower(a: Want, b: Want) {
    match (a, b)
    case (WantKey(k), WantKey(l)) => Less(k, l)
    case (WantKey(_), WantDoc(_)) => true
    case (WantDoc(_), WantKey(_)) => false
    case (WantDoc(d), WantDoc(e)) => d < e
  }

  lemma LowerTransitive(a: Want, b: Want, c: Want)
    requires Lower(a, b) && Lower(b, c)
    ensures Lower(a, c)
  {
    if a.WantKey? && c.WantKey? {
      LeTransitive(a.key, b.key, c.key);
      if a.key == c.key {
        LeAntisymmetric(a.key, b.key);
      }
    }
  }

  /** The lock a stuck transaction waits for. */
  function Wanted(x: Txn): Want {
    if x.stage == TakingKeys && x.keysHeld < |x.keys| then WantKey(x.keys[x.keysHeld])
    else if x.docsHeld < |x.order| then WantDoc(x.order[x.docsHeld])
    else WantDoc(0)
  }

  /** Waiting for an advisory lock or a document row that another transaction holds. */
  ghost predicate AtLock(h: LockHash, s: Sys, t: TxnId)
    requires t in s.txns
  {
    var x := s.txns[t];
    || (x.stage == TakingKeys && x.keysHeld < |x.keys| && !KeyFree(h, s, t, x.keys[x.keysHeld]))
    || (x.stage == TakingDocs && x.docsHeld < |x.order| && x.order[x.docsHeld] in s.db.docs
        && !DocFree(s, t, x.order[x.docsHeld]))
  }

  /** The source rows that the recheck or the filter locks are free. */
  ghost predicate RowsGranted(s: Sys, t: TxnId)
    requires t in s.txns
  {
    && (s.txns[t].source in s.db.sources ==> RowFree(s, t, s.txns[t].source))
    && (forall y :: y in Living(s.db, s.txns[t].found) ==> RowFree(s, t, y))
  }

  lemma RowsAreGranted(h: LockHash, s: Sys, t: TxnId)
    requires SysOk(h, s) && t in s.txns && Searched(s.txns[t].stage) && s.txns[t].docsHeld == |s.txns[t].order|
    ensures RowsGranted(s, t)
  {
    if s.txns[t].source in s.db.sources {
      RowsFree(h, s, t, s.txns[t].source);
    }
    forall y | y in Living(s.db, s.txns[t].found)
      ensures RowFree(s, t, y)
    {
      RowsFree(h, s, t, y);
    }
  }

  lemma GrantedOrAtLock(h: LockHash, s: Sys, t: TxnId)
    requires Stuck(h, s, t) && KeysPart(s.txns[t]) && OrderPart(s.txns[t])
    requires Searched(s.txns[t].stage) && s.txns[t].docsHeld == |s.txns[t].order| ==> RowsGranted(s, t)
    ensures AtLock(h, s, t)
  {
  }

  /** The recheck and the filter never wait for their rows: a transaction is stuck only
      at an advisory lock or a document row. */
  lemma StuckAtLock(h: LockHash, s: Sys, t: TxnId)
    requires SysOk(h, s) && Stuck(h, s, t)
    ensures AtLock(h, s, t)
  {
    if Searched(s.txns[t].stage) && s.txns[t].docsHeld == |s.txns[t].order| {
      RowsAreGranted(h, s, t);
    }
    GrantedOrAtLock(h, s, t);
  }

  /** Whoever blocks a stuck transaction and is stuck itself waits for a higher lock. */
  lemma BlockerWantsMore(h: LockHash, s: Sys, t: TxnId) returns (u: TxnId)
    requires Apart(h, KeysInFlight(s)) && SysOk(h, s) && Stuck(h, s, t)
    ensures u in s.txns && (Stuck(h, s, u) ==> Lower(Wanted(s.txns[t]), Wanted(s.txns[u])))
  {
    StuckAtLock(h, s, t);
    if s.txns[t].stage == TakingKeys {
      u := KeyBlocker(h, s, t);
    } else {
      u := DocBlocker(h, s, t);
    }
    if Stuck(h, s, u) {
      StuckAtLock(h, s, u);
    }
  }

  /** Keys are taken in ascending order. */
  lemma HeldBelowNext(x: Txn, key: string)
    requires KeysPart(x) && x.keysHeld < |x.keys| && key in HeldKeys(x)
    ensures Le(key, x.keys[x.keysHeld])
  {
    SortSorted(Unsorted(x.fp));
    var i :| 0 <= i < x.keysHeld && x.keys[i] == key;
  }

  lemma SameKey(h: LockHash, s: Sys, t: TxnId, key: string, u: TxnId, k: string)
    requires Apart(h, KeysInFlight(s)) && t in s.txns && u in s.txns
    requires key in s.txns[t].keys && k in s.txns[u].keys && h(k) == h(key)
    ensures k == key
  {
    assert key in KeysInFlight(s) && k in KeysInFlight(s);
  }

  lemma KeyHolder(h: LockHash, s: Sys, t: TxnId, key: string) returns (u: TxnId, k: string)
    requires !KeyFree(h, s, t, key)
    ensures u in s.txns && u != t && k in HeldKeys(s.txns[u]) && h(k) == h(key)
  {
    u, k :| u in s.txns && u != t && k in HeldKeys(s.txns[u]) && h(k) == h(key);
  }

  /** A transaction never waits for a key it holds itself. */
  lemma WantsNotHeld(h: LockHash, s: Sys, t: TxnId)
    requires KeysExclusive(h, s) && t in s.txns && AtLock(h, s, t) && s.txns[t].stage == TakingKeys
    ensures s.txns[t].keys[s.txns[t].keysHeld] !in HeldKeys(s.txns[t])
  {
  }

  /** Some transaction holds the wanted lock number; should it wait for a lock itself,
      it wants a higher one. */
  lemma KeyBlocker(h: LockHash, s: Sys, t: TxnId) returns (u: TxnId)
    requires Apart(h, KeysInFlight(s)) && KeysExclusive(h, s)
    requires t in s.txns && AtLock(h, s, t) && s.txns[t].stage == TakingKeys
    requires forall u: TxnId :: u in s.txns ==> KeysPart(s.txns[u])
    ensures u in s.txns && (AtLock(h, s, u) ==> Lower(Wanted(s.txns[t]), Wanted(s.txns[u])))
  {
    var key := s.txns[t].keys[s.txns[t].keysHeld];
    var k: string;
    u, k := KeyHolder(h, s, t, key);
    var y := s.txns[u];
    SameKey(h, s, t, key, u, k);
    if AtLock(h, s, u) && y.stage == TakingKeys {
      HeldBelowNext(y, key);
      WantsNotHeld(h, s, u);
    }
  }

  lemma DocBlocker(h: LockHash, s: Sys, t: TxnId) returns (u: TxnId)
    requires t in s.txns && AtLock(h, s, t) && s.txns[t].stage != TakingKeys
    requires forall u: TxnId :: u in s.txns ==> OrderPart(s.txns[u])
    ensures u in s.txns && s.txns[u].stage != TakingKeys
    ensures AtLock(h, s, u) ==> Lower(Wanted(s.txns[t]), Wanted(s.txns[u]))
  {
    var d := s.txns[t].order[s.txns[t].docsHeld];
    u :| u in s.txns && u != t && d in HeldDocs(s.txns[u]);
    var y := s.txns[u];
    var i :| 0 <= i < y.docsHeld && y.order[i] == d;
  }

  /** Among finitely many transactions one waits for a lock no other lies above. */
  lemma {:induction false} Highest(s: Sys, ids: set<TxnId>) returns (t: TxnId)
    requires ids != {} && ids <= s.txns.Keys
    ensures t in ids && forall u :: u in ids ==> !Lower(Wanted(s.txns[t]), Wanted(s.txns[u]))
    decreases |ids|
  {
    var first := Pick(ids);
    t := first;
    if v: TxnId :| v in ids && Lower(Wanted(s.txns[first]), Wanted(s.txns[v])) {
      var above := set u: TxnId | u in ids && Lower(Wanted(s.txns[first]), Wanted(s.txns[u]));
      assert v in above && first in ids - above && above < ids;
      SmallerSet(above, ids);
      t := Highest(s, above);
      forall u | u in ids && u !in above
        ensures !Lower(Wanted(s.txns[t]), Wanted(s.txns[u]))
      {
        if Lower(Wanted(s.txns[t]), Wanted(s.txns[u])) {
          LowerTransitive(Wanted(s.txns[first]), Wanted(s.txns[t]), Wanted(s.txns[u]));
        }
      }
    }
  }

  lemma SmallerSet(a: set<TxnId>, b: set<TxnId>)
    requires a < b
    ensures |a| < |b|
  {
    var rest := b - a;
    assert b == a + rest && rest != {};
  }

  lemma SomeoneMoves(h: LockHash, s: Sys) returns (t: TxnId)
    requires Apart(h, KeysInFlight(s)) && SysOk(h, s) && s.txns != map[]
    ensures t in s.txns && Enabled(h, s, Next(t, s.txns[t]))
  {
    t := Highest(s, s.txns.Keys);
    if Stuck(h, s, t) {
      t := BlockerWantsMore(h, s, t);
    }
  }

  /** In no interleaving do the transactions in flight block each other: one of them can
      take its next step without anybody giving up. */
  lemma NoDeadlock(h: LockHash, events: seq<Event>)
    requires Apart(h, KeysInFlight(Exec(h, events))) && Exec(h, events).txns != map[]
    ensures var s := Exec(h, events);
            exists t :: t in s.txns && Enabled(h, s, Next(t, s.txns[t]))
  {
    ExecOk(h, events);
    var t := SomeoneMoves(h, Exec(h, events));
  }

  // ----- how far a transaction has to go -----

  /** Steps before and after the document locks that a transaction has yet to take. */
  function Early(x: Txn): nat {
    match x.stage
    case TakingKeys => if x.keysHeld <= |x.keys| then 7 + |x.keys| - x.keysHeld else 7
    case SearchingExact => 6
    case SearchingText => 5
    case SearchingNear => 4
    case TakingDocs => 3
    case Filtering => 2
    case Writing => 1
  }

  /** Document locks it has yet to take. */
  function Late(x: Txn): nat {
    if x.docsHeld <= |x.order| then |x.order| - x.docsHeld else 0
  }

  ghost function SomeTxn(txns: map<TxnId, Txn>): (t: TxnId)
    requires txns != map[]
    ensures t in txns
  {
    var t :| t in txns;
    t
  }

  ghost function Sum(f: Txn -> nat, txns: map<TxnId, Txn>): nat
    decreases |txns|
  {
    if txns == map[] then 0
    else var t := SomeTxn(txns); f(txns[t]) + Sum(f, txns - {t})
  }

  lemma {:induction false} SumSplit(f: Txn -> nat, txns: map<TxnId, Txn>, t: TxnId)
    requires t in txns
    ensures Sum(f, txns) == f(txns[t]) + Sum(f, txns - {t})
    decreases |txns|
  {
    var u := SomeTxn(txns);
    if u != t {
      assert txns - {u} - {t} == txns - {t} - {u};
      SumSplit(f, txns - {u}, t);
      SumSplit(f, txns - {t}, u);
    }
  }

  /** The source is finalised, or gone. */
  predicate Settled(db: Db, z: Id) {
    z in db.sources ==> Hashed(db, z)
  }

  predicate Fewer(x: Txn, y: Txn) {
    Early(x) < Early(y) || (Early(x) == Early(y) && Late(x) < Late(y))
  }

  /** What a transaction's own step does: it moves on, or ends with its source settled
      or its writes committed. */
  ghost predicate Advanced(s: Sys, after: Sys, t: TxnId)
    requires t in s.txns
  {
    var x := s.txns[t];
    if t in after.txns then
      && after == Put(s, t, after.txns[t])
      && after.txns[t].source == x.source && after.txns[t].keys == x.keys && Fewer(after.txns[t], x)
    else
      && after.txns == s.txns - {t}
      && (if x.stage == Writing then after.db == Written(s.db, x)
          else after.db == s.db && Settled(s.db, x.source))
  }

  lemma LockAdvances(h: LockHash, s: Sys, t: TxnId)
    requires t in s.txns && Enabled(h, s, Next(t, s.txns[t]))
    requires s.txns[t].stage == TakingKeys || s.txns[t].stage == TakingDocs
    ensures Advanced(s, Step(h, s, Next(t, s.txns[t])), t)
  {
  }

  lemma SearchAdvances(h: LockHash, s: Sys, t: TxnId)
    requires t in s.txns && Enabled(h, s, Next(t, s.txns[t]))
    requires s.txns[t].stage == SearchingExact || s.txns[t].stage == SearchingText
    ensures Advanced(s, Step(h, s, Next(t, s.txns[t])), t)
  {
  }

  lemma LastSearchAdvances(h: LockHash, s: Sys, t: TxnId)
    requires At(s, t, SearchingNear)
    ensures Advanced(s, Step(h, s, SearchNear(t)), t)
  {
    AdvancedByPut(s, t, AfterNear(s.db, s.txns[t]));
  }

  lemma AdvancedByPut(s: Sys, t: TxnId, x: Txn)
    requires t in s.txns && x.source == s.txns[t].source && x.keys == s.txns[t].keys && Fewer(x, s.txns[t])
    ensures Advanced(s, Put(s, t, x), t)
  {
  }

  lemma WriteAdvances(h: LockHash, s: Sys, t: TxnId)
    requires t in s.txns && Enabled(h, s, Next(t, s.txns[t]))
    requires s.txns[t].stage == Filtering || s.txns[t].stage == Writing
    ensures Advanced(s, Step(h, s, Next(t, s.txns[t])), t)
  {
  }

  /** An event by which a running transaction continues. */
  predicate Continues(e: Event) {
    !e.Begin? && !e.Abort? && !e.Other?
  }

  lemma NextAdvances(h: LockHash, events: seq<Event>, t: TxnId) returns (e: Event)
    requires var s := Exec(h, events); t in s.txns && Enabled(h, s, Next(t, s.txns[t]))
    ensures Continues(e) && e == Next(t, Exec(h, events).txns[t])
    ensures Advanced(Exec(h, events), Exec(h, events + [e]), t)
  {
    var s := Exec(h, events);
    e := Next(t, s.txns[t]);
    assert (events + [e])[..|events|] == events;
    match s.txns[t].stage
    case TakingKeys => LockAdvances(h, s, t);
    case TakingDocs => LockAdvances(h, s, t);
    case Filtering => WriteAdvances(h, s, t);
    case Writing => WriteAdvances(h, s, t);
    case SearchingNear => LastSearchAdvances(h, s, t);
    case _ => SearchAdvances(h, s, t);
  }

  lemma AdvanceDescends(s: Sys, after: Sys, t: TxnId)
    requires t in s.txns && Advanced(s, after, t)
    ensures Sum(Early, after.txns) < Sum(Early, s.txns)
            || (Sum(Early, after.txns) == Sum(Early, s.txns) && Sum(Late, after.txns) < Sum(Late, s.txns))
  {
    SumSplit(Early, s.txns, t);
    SumSplit(Late, s.txns, t);
    if t in after.txns {
      assert after.txns - {t} == s.txns - {t};
      SumSplit(Early, after.txns, t);
      SumSplit(Late, after.txns, t);
    }
  }

  lemma CommitSettles(db: Db, used: set<Id>, x: Txn)
    requires Inv(db) && TxnOk(db, used, x) && x.stage == Writing
    ensures Settled(Written(db, x), x.source) && Written(db, x).sources.Keys == db.sources.Keys
    ensures forall z :: Settled(db, z) ==> Settled(Written(db, x), z)
  {
    CommitReady(db, used, x);
    FinalFrame(db, x.source, x.fp, x.hits, AsSet(x.order));
  }

  lemma AdvanceSettles(s: Sys, after: Sys, t: TxnId)
    requires t in s.txns && Advanced(s, after, t) && Inv(s.db) && TxnOk(s.db, s.used, s.txns[t])
    ensures after.db.sources.Keys == s.db.sources.Keys
    ensures forall z :: Settled(s.db, z) ==> Settled(after.db, z)
    ensures t !in after.txns ==> Settled(after.db, s.txns[t].source)
  {
    if s.txns[t].stage == Writing && t !in after.txns {
      CommitSettles(s.db, s.used, s.txns[t]);
    }
  }

  /** No source has gone, none is unsettled again, and whoever is no longer in flight has
      settled its source. */
  ghost predicate Progressed(s: Sys, after: Sys) {
    && after.db.sources.Keys == s.db.sources.Keys
    && (forall z :: Settled(s.db, z) ==> Settled(after.db, z))
    && (forall t :: t in s.txns ==>
                      || (t in after.txns && after.txns[t].source == s.txns[t].source)
                      || Settled(after.db, s.txns[t].source))
  }

  lemma AdvanceProgresses(s: Sys, after: Sys, t: TxnId)
    requires t in s.txns && Advanced(s, after, t) && Inv(s.db) && TxnOk(s.db, s.used, s.txns[t])
    ensures Progressed(s, after)
  {
    AdvanceSettles(s, after, t);
  }

  lemma AdvanceKeys(s: Sys, after: Sys, t: TxnId)
    requires t in s.txns && Advanced(s, after, t)
    ensures KeysInFlight(after) <= KeysInFlight(s)
  {
    forall k | k in KeysInFlight(after)
      ensures k in KeysInFlight(s)
    {
      var u: TxnId :| u in after.txns && k in after.txns[u].keys;
      assert u in s.txns && k in s.txns[u].keys;
    }
  }

  // ----- schedules -----

  /** Some transaction in flight can take this own step now. */
  ghost predicate Turn(h: LockHash, events: seq<Event>, e: Event) {
    Continues(e) && Enabled(h, Exec(h, events), e)
  }

  /** The execution so far goes on with own steps of the transactions in flight, each
      possible when its turn comes. */
  ghost predicate Schedule(h: LockHash, events: seq<Event>, all: seq<Event>) {
    && events <= all
    && (forall i :: |events| <= i < |all| ==> Turn(h, all[..i], all[i]))
  }

  ghost predicate Bounded(h: LockHash, events: seq<Event>, n: nat) {
    forall all :: Schedule(h, events, all) ==> |all| <= |events| + n
  }

  lemma ContinuesIsNext(h: LockHash, s: Sys, e: Event) returns (t: TxnId)
    requires Continues(e) && Enabled(h, s, e)
    ensures t in s.txns && e == Next(t, s.txns[t])
  {
    t := e.t;
  }

  // ----- every schedule ends -----

  /** A bound for the schedules that begin with a step of t. */
  ghost predicate BoundedNext(h: LockHash, events: seq<Event>, t: TxnId, n: nat) {
    var s := Exec(h, events);
    t in s.txns && Enabled(h, s, Next(t, s.txns[t])) ==> Bounded(h, events + [Next(t, s.txns[t])], n)
  }

  ghost predicate BoundedAfter(h: LockHash, events: seq<Event>, ids: set<TxnId>, n: nat) {
    forall t :: t in ids ==> BoundedNext(h, events, t, n)
  }

  lemma ScheduleRest(h: LockHash, events: seq<Event>, all: seq<Event>)
    requires Schedule(h, events, all) && |events| < |all|
    ensures Turn(h, events, all[|events|]) && Schedule(h, events + [all[|events|]], all)
  {
    assert all[..|events|] == events;
  }

  lemma FirstStepBounds(h: LockHash, events: seq<Event>, n: nat, all: seq<Event>)
    requires BoundedAfter(h, events, Exec(h, events).txns.Keys, n) && Schedule(h, events, all)
    ensures |all| <= |events| + n + 1
  {
    if |events| < |all| {
      ScheduleRest(h, events, all);
      var t := ContinuesIsNext(h, Exec(h, events), all[|events|]);
      assert BoundedNext(h, events, t, n);
    }
  }

  lemma NextBoundedMore(h: LockHash, events: seq<Event>, t: TxnId, m: nat, n: nat)
    requires BoundedNext(h, events, t, m) && m <= n
    ensures BoundedNext(h, events, t, n)
  {
  }

  lemma BoundsJoin(h: LockHash, events: seq<Event>, ids: set<TxnId>, t: TxnId, m: nat, k: nat)
    requires BoundedAfter(h, events, ids - {t}, m) && BoundedNext(h, events, t, k)
    ensures BoundedAfter(h, events, ids, m + k)
  {
    forall u | u in ids
      ensures BoundedNext(h, events, u, m + k)
    {
      if u != t {
        assert u in ids - {t};
        NextBoundedMore(h, events, u, m, m + k);
      } else {
        NextBoundedMore(h, events, u, k, m + k);
      }
    }
  }

  lemma {:induction false} LongestAfter(h: LockHash, events: seq<Event>, ids: set<TxnId>, early: nat, late: nat)
    returns (n: nat)
    requires early == Sum(Early, Exec(h, events).txns) && late == Sum(Late, Exec(h, events).txns)
    ensures BoundedAfter(h, events, ids, n)
    decreases early, late, 0, |ids|
  {
    if ids == {} {
      n := 0;
    } else {
      var t := Pick(ids);
      var m := LongestAfter(h, events, ids - {t}, early, late);
      var k := LongestOfOne(h, events, t, early, late);
      n := m + k;
      BoundsJoin(h, events, ids, t, m, k);
    }
  }

  lemma {:induction false} LongestOfOne(h: LockHash, events: seq<Event>, t: TxnId, early: nat, late: nat)
    returns (n: nat)
    requires early == Sum(Early, Exec(h, events).txns) && late == Sum(Late, Exec(h, events).txns)
    ensures BoundedNext(h, events, t, n)
    decreases early, late, 0, 0
  {
    n := 0;
    var s := Exec(h, events);
    if t in s.txns && Enabled(h, s, Next(t, s.txns[t])) {
      var e := NextAdvances(h, events, t);
      var after := Exec(h, events + [e]);
      AdvanceDescends(s, after, t);
      n := Longest(h, events + [e], Sum(Early, after.txns), Sum(Late, after.txns));
    }
  }

  lemma {:induction false} Longest(h: LockHash, events: seq<Event>, early: nat, late: nat) returns (n: nat)
    requires early == Sum(Early, Exec(h, events).txns) && late == Sum(Late, Exec(h, events).txns)
    ensures Bounded(h, events, n)
    decreases early, late, 1, 0
  {
    var m := LongestAfter(h, events, Exec(h, events).txns.Keys, early, late);
    n := m + 1;
    forall all | Schedule(h, events, all)
      ensures |all| <= |events| + n
    {
      FirstStepBounds(h, events, m, all);
    }
  }

  // ----- what a schedule brings about -----

  ghost predicate Onward(s: Sys, after: Sys) {
    Progressed(s, after) && KeysInFlight(after) <= KeysInFlight(s)
  }

  lemma OnwardOn(s: Sys, mid: Sys, after: Sys)
    requires Onward(s, mid) && Onward(mid, after)
    ensures Onward(s, after)
  {
  }

  lemma OwnStepProgresses(h: LockHash, events: seq<Event>, e: Event)
    requires Turn(h, events, e)
    ensures Onward(Exec(h, events), Exec(h, events + [e]))
  {
    var s := Exec(h, events);
    ExecOk(h, events);
    var t := ContinuesIsNext(h, s, e);
    var n := NextAdvances(h, events, t);
    AdvanceProgresses(s, Exec(h, events + [e]), t);
    AdvanceKeys(s, Exec(h, events + [e]), t);
  }

  lemma ScheduleFront(h: LockHash, events: seq<Event>, all: seq<Event>)
    requires Schedule(h, events, all) && |events| < |all|
    ensures Schedule(h, events, all[..|all| - 1]) && Turn(h, all[..|all| - 1], all[|all| - 1])
  {
    var front := all[..|all| - 1];
    forall i | |events| <= i < |front|
      ensures Turn(h, front[..i], front[i])
    {
      assert front[..i] == all[..i] && Turn(h, all[..i], all[i]);
    }
  }

  lemma {:induction false} SchedulesProgress(h: LockHash, events: seq<Event>, all: seq<Event>)
    requires Schedule(h, events, all)
    ensures Onward(Exec(h, events), Exec(h, all))
    decreases |all|
  {
    if |all| == |events| {
      assert all == events;
    } else {
      var front, e := all[..|all| - 1], all[|all| - 1];
      ScheduleFront(h, events, all);
      SchedulesProgress(h, events, front);
      OwnStepProgresses(h, front, e);
      assert front + [e] == all;
      OnwardOn(Exec(h, events), Exec(h, front), Exec(h, all));
    }
  }

  // ----- everybody finishes -----

  /** No transaction can take its next step. */
  ghost predicate Halted(h: LockHash, s: Sys) {
    forall t :: t in s.txns ==> Stuck(h, s, t)
  }

  /** Nothing is in flight any more, no source has gone, and every existing source that
      was being finalised is finalised. */
  ghost predicate AllFinalised(s: Sys, end: Sys) {
    && end.txns == map[] && end.db.sources.Keys == s.db.sources.Keys
    && (forall t :: t in s.txns && s.txns[t].source in s.db.sources ==> Hashed(end.db, s.txns[t].source))
  }

  lemma HaltedIsEmpty(h: LockHash, events: seq<Event>)
    requires Apart(h, KeysInFlight(Exec(h, events))) && Halted(h, Exec(h, events))
    ensures Exec(h, events).txns == map[]
  {
    if Exec(h, events).txns != map[] {
      NoDeadlock(h, events);
    }
  }

  lemma HaltedIsFinalised(h: LockHash, events: seq<Event>, all: seq<Event>)
    requires Apart(h, KeysInFlight(Exec(h, events)))
    requires Schedule(h, events, all) && Halted(h, Exec(h, all))
    ensures AllFinalised(Exec(h, events), Exec(h, all))
  {
    SchedulesProgress(h, events, all);
    HaltedIsEmpty(h, all);
  }

  /** However the transactions in flight are scheduled, they come to an end after a bounded
      number of steps, and where none can go on all existing sources are finalised. */
  lemma EveryScheduleEnds(h: LockHash, events: seq<Event>)
    requires Apart(h, KeysInFlight(Exec(h, events)))
    ensures exists n :: Bounded(h, events, n)
    ensures forall all :: Schedule(h, events, all) && Halted(h, Exec(h, all)) ==>
                            AllFinalised(Exec(h, events), Exec(h, all))
  {
    var s := Exec(h, events);
    var n := Longest(h, events, Sum(Early, s.txns), Sum(Late, s.txns));
    forall all | Schedule(h, events, all) && Halted(h, Exec(h, all))
      ensures AllFinalised(s, Exec(h, all))
    {
      HaltedIsFinalised(h, events, all);
    }
  }

  lemma ScheduleMore(h: LockHash, events: seq<Event>, all: seq<Event>, e: Event)
    requires Schedule(h, events, all) && Turn(h, all, e)
    ensures Schedule(h, events, all + [e])
  {
    var more := all + [e];
    forall i | |events| <= i < |more|
      ensures Turn(h, more[..i], more[i])
    {
      assert more[..i] == all[..i];
    }
  }

  /** A schedule that is bounded can be carried on until nobody can go on. */
  lemma {:induction false} CarryOn(h: LockHash, events: seq<Event>, n: nat, all: seq<Event>) returns (end: seq<Event>)
    requires Bounded(h, events, n) && Schedule(h, events, all)
    ensures Schedule(h, events, end) && Halted(h, Exec(h, end))
    decreases |events| + n - |all|
  {
    end := all;
    if !Halted(h, Exec(h, all)) {
      var t: TxnId :| t in Exec(h, all).txns && !Stuck(h, Exec(h, all), t);
      var e := NextAdvances(h, all, t);
      ScheduleMore(h, events, all, e);
      end := CarryOn(h, events, n, all + [e]);
    }
  }

  /** From every reachable state the transactions in flight can all be run to their end
      without aborting any, which finalises their sources. */
  lemma EverybodyFinishes(h: LockHash, events: seq<Event>)
    requires Apart(h, KeysInFlight(Exec(h, events)))
    ensures exists all :: Schedule(h, events, all) && AllFinalised(Exec(h, events), Exec(h, all))
  {
    var s := Exec(h, events);
    var n := Longest(h, events, Sum(Early, s.txns), Sum(Late, s.txns));
    var all := CarryOn(h, events, n, events);
    HaltedIsFinalised(h, events, all);
  }

  lemma PutKeys(s: Sys, t: TxnId, x: Txn)
    ensures KeysInFlight(Put(s, t, x)) <= KeysInFlight(s) + set k | k in x.keys
  {
    var after := Put(s, t, x);
    forall k | k in KeysInFlight(after) && k !in x.keys
      ensures k in KeysInFlight(s)
    {
      var u: TxnId :| u in after.txns && k in after.txns[u].keys;
      assert u != t && u in s.txns && k in s.txns[u].keys;
    }
  }

  /** Whatever else is going on, the finalisation of an existing source can be begun and
      brought to its end. */
  lemma CanBeFinalised(h: LockHash, events: seq<Event>, t: TxnId, z: Id, fp: Fingerprint)
    requires WellFormed(fp) && fp.sha != ""
    requires Apart(h, KeysInFlight(Exec(h, events)) + set k | k in Keys(fp))
    requires t !in Exec(h, events).txns && z in Exec(h, events).db.sources
    ensures exists all :: Schedule(h, events + [Begin(t, z, fp)], all) && Hashed(Exec(h, all).db, z)
  {
    var begun := events + [Begin(t, z, fp)];
    assert begun[..|events|] == events;
    var s := Exec(h, begun);
    assert t in s.txns && s.txns[t].source == z;
    PutKeys(Exec(h, events), t, s.txns[t]);
    EverybodyFinishes(h, begun);
    var all :| Schedule(h, begun, all) && AllFinalised(s, Exec(h, all));
    assert Hashed(Exec(h, all).db, z);
  }
}
